# A verified model of the memcache core

The repository is a bounded, sharded, concurrent in-memory cache for Go. This project models its hard
parts in Dafny and proves what its documentation promises of them.

- **Protocols** are step systems. A section under a lock is one step, or where others read without the
  lock one step per store they can see; where the code releases a lock, calls a Store or a loader, or
  uses an atomic outside a lock, another step may come between. The
  theorems hold in every run: `Loader` (loads in flight and what overtakes them), `Shed` and
  `ShedEnds` (the cross-shard sweep behind the entry and byte bounds, and that it ends), `ReadMap` (lock-free reads), `KeyLocks` and
  `StoreReadThrough` (per-key locks, watch tokens, read-through promotion), `Tiered`, `Tags`,
  `AsyncWrites`.
- **Structures** are classes whose methods are proved against a simple meaning: `FlatStorage` (a map),
  `TimingWheel` and `ExpiryHeap` (entries and when they are due, with `WheelTtl` comparing the two),
  `S3Fifo`, `S3Victim` and `S3Cache`, `ArcPolicy` and `ArcVictim`, `Lfu` (each victim against a rule over all
  entries and a history of uses), `Sketch` (exact decayed counts),
  `Accounting` (storage, policy, heap and counters in step).
- **Snapshots** are a printer and a parser with size and decompression budgets, and the format
  itself: `Snapshot`, `SnapshotFormat`.

`Queues` and `Prelude` hold shared lemmas. `dafny verify dfyconfig.toml` checks the whole project.

## What the proofs found

- `ReadMap`: lock-free reads linearize but for two cases, each with a run that shows it. An in-place
  update whose expiry has already passed can show a reader a value that no locked read returns, when it
  overtakes the reader between its expiry check and its value load. Loading a snapshot's record removes
  and re-inserts its key in one locked section: a snapshot published in between denies a stored key, and
  one published while the record is itself to be shed shows a record that is never stored. `Gap` is the
  exact condition on the section's next store.
- `StoreReadThrough`: memory and Store may disagree for good even when the key is evicted only after a
  Set's Store write, if a read-through that began inside the Set is still running: they agree iff no Set
  or Compute delete has reached the Store since the read that memory's value came from. Compute's delete,
  unlike Delete, clears memory before the Store, and clears nothing when Compute could not cache what it
  found in the Store: either way a read-through can undo it, and `ErasedReturnsIff` says exactly when.
  Delete is never undone, with Compute's steps among the others.
- `Tags`: an update in place untags a key before tagging it again, so an InvalidateTag in between leaves
  the entry stored; it removes exactly the keys the index names at its snapshot.
- `Accounting`: the expiry heap takes an entry on Add for any expiry but 0, on Fix only for a positive
  one. An entry without expiry that an update gives an absolute expiry before 1970 is never swept; all
  other expired entries are.
- `ArcPolicy`: the bounds |T1|+|B1| <= c and |T2|+|B2| <= 2c of the header comment do not survive every
  insert and access; the code follows weaker bounds, which are proved.
- Dead branches: S3-FIFO's fallback for budgets from 2 on, ARC's last branch in Victim, the vanished-op
  check in asyncwrites.go, the orphan already present in orphanFlight.

## Model

| member | source | states |
|---|---|---|
| FlatStorage.FibonacciSlot | flatstore.go:72-104 | the start slot of a hash lies inside the table |
| FlatStorage.NextPowerOfTwo | options.go:269-278 | the least power of two at or above n |
| FlatStorage.InsertHolds | flatstore.go:114-145 | putting a new key in the first free slot of its probe path keeps unique keys and unbroken paths |
| FlatStorage.DeleteHolds | flatstore.go:147-163 | a tombstone takes one key out and breaks no other key's path |
| FlatStorage.AbsentAtEmpty | flatstore.go:72-104 | a probe path that reaches an empty slot without meeting the key proves the key absent |
| FlatStorage.FlatStore.constructor | flatstore.go:57-66 | an empty store over a table whose size is a power of two, for any start-slot function |
| FlatStorage.FlatStore.Probe | flatstore.go:72-104 | found iff the key is mapped, at its slot; otherwise a slot where it may be put; the loop always ends at the key or an empty slot |
| FlatStorage.FlatStore.Get | flatstore.go:106-112 | exactly the map lookup |
| FlatStorage.FlatStore.Set | flatstore.go:114-145 | exactly the map update; a new key rebuilds the table iff three quarters of the slots are in use, and doubles it iff three quarters are occupied, so a quarter always stays empty |
| FlatStorage.FlatStore.Del | flatstore.go:147-163 | exactly the map removal, and whether there was anything to remove; it rebuilds the table, at the same size, iff half the slots would be tombstones |
| FlatStorage.FlatStore.ClearAll | flatstore.go:167-173 | the empty map |
| FlatStorage.FlatStore.Rebuild | flatstore.go:216-232 | moving to a table of another size keeps the map and drops every tombstone |
| TimingWheel.ScheduledAhead | internal/wheel/wheel.go:65-86 | slot and revolutions computed on Add put the entry exactly its ticks ahead of the cursor |
| TimingWheel.ScheduledTick | internal/wheel/wheel.go:140-155 | one tick: an entry is due iff it sits in the slot reached with no revolutions left, otherwise its schedule stands |
| TimingWheel.ScheduledLaps | internal/wheel/wheel.go:161-178 | n whole revolutions: an entry is due iff it has fewer than n revolutions left, otherwise its schedule stands |
| TimingWheel.Wheel.constructor | internal/wheel/wheel.go:36-50 | an empty wheel at tick 0; non-positive sizes become 1 |
| TimingWheel.Wheel.Add | internal/wheel/wheel.go:65-86 | the entry is due at the first tick at or after its expiry, less than one tick late, or at the next tick if its expiry has passed the cursor |
| TimingWheel.Wheel.Remove | internal/wheel/wheel.go:90-96 | exactly that entry is no longer due; removing again changes nothing |
| TimingWheel.Wheel.AdvanceTo | internal/wheel/wheel.go:107-135 | over any jump, whole revolutions included, returns without repetition exactly the entries whose due tick has passed, and keeps the others |
| TimingWheel.Wheel.ProcessSlot | internal/wheel/wheel.go:140-155 | unlinks and returns exactly the ripe entries of the slot and takes one revolution from the rest |
| TimingWheel.Wheel.DecrementAllRevolutions | internal/wheel/wheel.go:161-178 | unlinks and returns exactly the entries with fewer than n revolutions left and takes n from the rest |
| TimingWheel.Wheel.Reset | internal/wheel/wheel.go:208-215 | no entry is due and the cursor is back at the origin |
| ExpiryHeap.ExpiryHeapBackend.Swap | expiry.go:26-30 | two entries change places and their back-pointers follow |
| ExpiryHeap.ExpiryHeapBackend.Up | expiry.go:20-48 | sifting up restores heap order broken at one entry, back-pointers exact throughout |
| ExpiryHeap.ExpiryHeapBackend.Down | expiry.go:20-48 | sifting down restores heap order below an entry, and reports whether it moved |
| ExpiryHeap.ExpiryHeapBackend.PopLeast | ttlbackend.go:114-121 | pops an entry of least expiry, keeping order and back-pointers |
| ExpiryHeap.ExpiryHeapBackend.Add | ttlbackend.go:83-89 | tracks the entry iff its expiry is not 0 |
| ExpiryHeap.ExpiryHeapBackend.Remove | ttlbackend.go:92-97 | untracks exactly that entry; a no-op if untracked |
| ExpiryHeap.ExpiryHeapBackend.Fix | ttlbackend.go:101-111 | for any new expiry: 0 untracks the entry, a positive one tracks it, a negative one leaves it tracked or not, in heap order |
| ExpiryHeap.ExpiryHeapBackend.Sweep | ttlbackend.go:114-121 | returns exactly the tracked entries due at now, soonest first, none twice, and keeps the rest |
| ExpiryHeap.ExpiryHeapBackend.Reset | ttlbackend.go:128-136 | nothing is tracked |
| WheelTtl.WheelBackend.Add | wheel_ttl.go:30-39 | tracks the entry iff its expiry is not 0 |
| WheelTtl.WheelBackend.Remove | wheel_ttl.go:42-48 | untracks exactly that entry |
| WheelTtl.WheelBackend.Fix | wheel_ttl.go:52-55 | re-tracks the entry at its new expiry |
| WheelTtl.WheelBackend.Sweep | wheel_ttl.go:61-74 | everything returned is what the heap backend would return at now; anything it would return and this does not expired, or was scheduled, less than a tick ago |
| WheelTtl.SweepWithinOneTick | wheel_ttl.go:61-74 | the same, for any schedule the wheel can hold |
| WheelTtl.TimelyWithinOneTick | wheel_ttl.go:5-16 | an entry added before it expired is swept no earlier than its expiry and no later than one tick after it |
| S3Fifo.SplitBudget | s3fifo.go:108-121 | the two budgets add up to the total, small being a tenth rounded up; both are at least 1 from a total of 2 |
| S3Fifo.OnInsertKeeps | s3fifo.go:141-154 | a ghost joins the tail of main with a count of 1, any other key the tail of small with 0; nothing else changes, and sizes, queues, frequencies and ghosts stay consistent |
| S3Fifo.OnAccessKeeps | s3fifo.go:158-166 | an access moves nothing, adds one to that entry's counter up to 3 and leaves every other |
| S3Fifo.OnRemoveKeeps | s3fifo.go:177-196 | exactly that entry leaves |
| S3Fifo.OnRemoveLeaves | s3fifo.go:177-196 | every other entry keeps its counter, and the queue that did not hold it its order |
| S3Fifo.SetBudgetKeeps | s3fifo.go:125-133 | new budgets change no resident entry and keep exactly the newest ghosts that fit |
| S3Fifo.VictimEndsInLoop | s3fifo.go:206-283 | for budgets of at least 1 each, from every consistent state the rotation loop returns before its cap: the fallback is unreachable |
| S3Fifo.VictimGhosts | s3fifo.go:206-283 | the ghost queue records exactly the victims that leave small unaccessed, newest last, within its budget |
| S3Fifo.VictimSound | s3fifo.go:206-283 | Victim gives up exactly one resident entry, never the latest insert, and one whenever more is tracked than the budget |
| S3Fifo.ShedSound | s3fifo.go:483-504 | shed finds an entry whenever it may take one, and takes the latest insert only when asked to and nothing else is left |
| S3Fifo.OnRemoveEvicted | s3fifo.go:177-196 | OnRemove after Victim leaves exactly the remaining entries tracked |
| S3Fifo.S3Policy.SetBudget | s3fifo.go:125-133 | refines Rebudgeted with its trim loop; SetBudgetKeeps is about that state |
| S3Fifo.S3Policy.OnInsert | s3fifo.go:141-154 | refines Inserted in place; OnInsertKeeps is about that state |
| S3Fifo.S3Policy.OnRemove | s3fifo.go:177-196 | refines Removed in place, also after Victim; OnRemoveKeeps and OnRemoveEvicted are about that state |
| S3Fifo.S3Policy.Victim | s3fifo.go:206-283 | the bounded rotation loop and its fallback refine VictimOf; VictimEndsInLoop and VictimSound are about that victim |
| S3Fifo.S3Policy.Shed | s3fifo.go:483-504 | refines ShedOf with its search loops; ShedSound is about that victim |
| S3Fifo.S3Policy.RecordGhost | s3fifo.go:422-440 | a key is recorded once, newest last, within the ghost budget |
| S3Victim.VictimIs | s3fifo.go:206-283 | for every consistent state and any budgets, the rotations and the fallback amount to this: the accessed entries at the head of small's overflow are promoted with their counters cleared, the first one not accessed goes, and if all were accessed main, if over budget, gives up the entry of least count, oldest among equals, other than the latest insert; and what is left of both queues |
| S3Victim.AccessedGoesLast | s3fifo.go:206-283 | an accessed entry of small is the victim only if all of small's overflow was accessed |
| S3Victim.CounterLaw | s3fifo.go:141-166 | after any history an entry's counter is where its last insert, promotion or second chance left it, plus the accesses since, up to 3 |
| S3Victim.AccessedIsSpared | s3fifo.go:206-283 | after any history no turn of Victim evicts from small an entry accessed since it came in |
| S3Victim.VictimPlays | s3fifo.go:206-283 | Victim is such a history: some turns, and then its choice is taken or nothing is |
| S3Victim.ShedIs | s3fifo.go:483-504 | shed takes the oldest candidate of small, else of main, else the latest insert if it may |
| S3Cache.PerShardBudget | cache.go:452-459 | at least 2 per shard, and enough over all shards, for any bound of at least 1 |
| S3Fifo.S3Policy.ShedVictim | policy.go:172-183 | refines ShedVictimOf; ShedVictimSound is about that victim |
| S3Fifo.ShedVictimSound | policy.go:172-183 | a victim is found whenever one may be taken, sparing the latest insert if asked to |
| S3Cache.Cache.constructor | cache.go:452-459 | an empty cache within its bound |
| S3Cache.Cache.EvictOverBudgetLocked | cache.go:1826-1846 | afterwards the shard is within its budget, and within keep or the cache within its bound; nothing is evicted unless due, the last eviction was, and with keep 1 the latest insert stays |
| S3Cache.Cache.ShedPass | cache.go:1882-1904 | one sweep brings the cache within its bound, exactly to it if no shard was over its budget, touching the last shard only if nothing else was left to give |
| S3Cache.Cache.ShedOverBudget | cache.go:1860-1879 | the cache is within its bound; nothing changes if it already was |
| S3Cache.Cache.Set | cache.go:1680-1792 | from any state of an idle cache: the key is resident, its shard within budget after an insert, the whole cache within maxEntries, no other key appears, and none leaves if the key was there or there was room |
| S3Cache.Cache.Get | cache.go:836-942 | an access changes no shard's contents |
| S3Cache.Cache.Delete | cache.go:1408-1419 | exactly that key leaves |
| Loader.StartedStep | loader.go:128-136 | a new load is registered and supersedes the abandoned one of its key, nothing else |
| Loader.OrphanStep | loader.go:111-123 | a load whose waiters left stays registered, as an orphan, and supersedes nothing |
| Loader.SupersedeStep | loader.go:71-89 | exactly the running loads of the key become superseded |
| Loader.MatchStep | cache.go:2692-2720 | exactly the running loads of matching keys become superseded |
| Loader.LeftStep | loader.go:141-148 | a finished load leaves both registers; if it was current, no other load of its key is registered |
| Loader.RunInv | cache.go:2898-3034 | in every run each unfinished, unsuperseded load is registered for its key, no key is registered twice, reference counts are exact, and joinable loads are not canceled |
| Loader.SupersededIffOvertaken | loader.go:62-67 | in every run a running load is superseded iff a write, delete, superseding removal or newer load of its key came after it started |
| Loader.StoresIffCurrent | cache.go:3150-3168 | in every run a finished load records its value, tombstone or error iff nothing overtook it and the cache is open |
| Loader.ErrorsBounded | cache.go:3177-3194 | in every run the table of cached errors stays within its limit: a full table drops errors before it records one |
| Loader.StoredLoadSawNoChange | cache.go:3101-3168 | from the start of a load to the moment its result is stored, its key's entry only stayed, or was removed for capacity, expiry or resize and no other reason |
| Loader.OvertakenLoadIsDiscarded | loader.go:154-160 | in every run a load during which its key was written, deleted, removed for any other reason, matched by a prefix deletion, cleared or loaded anew records nothing |
| Loader.CellIsLatest | cache.go:3101-3168 | in every run a key's entry is what the latest kept write or recorded load of it stored, with no removal since |
| Loader.StoredUntilDropped | cache.go:3101-3168 | in every run what a write or load stored stays until a removal |
| Loader.ClosedRecordsNothing | cache.go:3150-3168 | in every run no load finishing after Close records anything |
| Loader.ErrorsKeptWhileRoom | cache.go:3177-3194 | a recorded error takes the place of others only in a full table |
| Loader.RemovalDuringLoad | loader.go:154-160 | a run for every reason of removal: the load's value is stored after it iff the reason is capacity, expiry or resize |
| Loader.CancelledNeverJoined | cache.go:3015-3034 | a load canceled because all its waiters left is never again the one a caller would join |
| Loader.OneLiveLoad | loader.go:71-148 | at most one current load per key |
| Loader.FlightTables.SupersedeFlight | loader.go:71-89 | refines the step that SupersedeStep and the whole-run theorems are about |
| Loader.FlightTables.SupersedeAllFlights | loader.go:93-105 | the loops mark exactly the registered flights and forget the orphans |
| Loader.FlightTables.OrphanFlight | loader.go:111-123 | refines the step that OrphanStep and the whole-run theorems are about |
| Loader.FlightTables.StartFlight | loader.go:128-136 | refines the step that StartedStep and the whole-run theorems are about |
| Loader.FlightTables.LeaveInflight | loader.go:141-148 | refines the step that LeftStep and the whole-run theorems are about |
| Shed.OwnStep | cache.go:1860-1904 | a thread obliged to restore a bound stays obliged across its own step unless the bound holds; setting shedRetry is the one exception |
| Shed.OtherStep | cache.go:1860-1904 | a step that leaves its thread unobliged neither breaks a bound nor relieves any other thread |
| Shed.InvStep | cache.go:1860-1904 | every step keeps one lock holder per shard, one shedder iff shedding is set, and some obliged thread for every bound exceeded |
| Shed.OverageIsSomeonesDuty | cache.go:1848-1879 | in every interleaving, while a bound is exceeded some call in progress is still due to sweep or to hand the sweep on |
| Shed.QuiescentWithinBudget | cache.go:1812-1904 | in every interleaving, whenever no call is in progress the cache is within its entry and byte bounds |
| ShedEnds.EveryStepIsNearer | cache.go:1860-1904 | past its first load, a call in progress alone comes nearer the end of the protocol with every step it can take, so its loops end |
| ShedEnds.CanStep | cache.go:1860-1904 | a call in progress alone always has a step to take |
| ShedEnds.LoneCallSettles | cache.go:1848-1904 | from every reachable state with one call in progress, some steps of that call alone bring the cache to rest within both bounds |
| ReadMap.PerformedInv | readmap.go:59-114 | every store of a locked section keeps: an entry is stored until invalidated, and an unamended snapshot covers all of storage |
| ReadMap.ShardInv | readmap.go:59-114 | the same in every run, and the section under way always leads from what the lock guarded before to what it guards after |
| ReadMap.BumpPublishesIff | readmap.go:44-78 | a miss publishes the storage as the new snapshot iff it is at least the eighth since the last one and there were as many as the snapshot has keys |
| ReadMap.WholeIff | snapshot.go:513-572 | a removal that publishes leaves every key as before or as after its section, iff it is not a gap of a loaded record |
| ReadMap.HonestIff | snapshot.go:513-572 | the snapshot keeps every key the section finds and leaves stored, and no valid entry stored neither before nor after it, through the next store iff that is not a gap |
| ReadMap.LockFreeReadsLinearize | readmap.go:169-200 | in every run without gaps or backdated updates, each lock-free answer is what a locked read would have returned at some instant of the call |
| ReadMap.MissesAreAuthoritative | readmap.go:177-184 | in every run without gaps, an authoritative miss is what a locked read returns at that instant, before or after the section under way |
| ReadMap.OvertakenReaderIff | cache.go:1274-1341 | the first half of an update overtaking a reader past its expiry check shows it a value a locked read also returns iff the update's expiry is unset or later than the reader's clock |
| ReadMap.BackdatedUpdate | cache.go:1274-1341 | a run in which a lock-free read returns a value no locked read ever does: an in-place update with an expiry already reached |
| ReadMap.ReplaceGap | snapshot.go:513-552 | a run in which a lock-free read misses a key that is stored before, during and after the call: loading a record publishes between its removal and its insert |
| ReadMap.ShedGap | snapshot.go:562-572 | a run in which a lock-free read returns a loaded record that is shed in the same section: shedding another entry publishes first |
| KeyLocks.InvStep | shard.go:134-156 | every step keeps one counted record, used by every goroutine inside |
| KeyLocks.OneHolder | shard.go:134-156 | in every run at most one goroutine holds a key, however many records it has had, and no record outlives its users |
| KeyLocks.WaiterEntersIff | shard.go:134-156 | in every run a goroutine waiting for a key may take it iff nobody holds it |
| KeyLocks.Handover | shard.go:134-156 | a run in which the key passes from one goroutine to another |
| StoreReadThrough.TokensStep | tiered.go:120-142 | every step keeps token reference counts exact and the watched token the only current one |
| StoreReadThrough.WatchedIffLive | tiered.go:120-142 | in every run the watch map holds exactly the tokens in use and not superseded |
| StoreReadThrough.CurrentIffUndisturbed | tiered.go:120-142 | in every run a read-through's token is current iff nothing has disturbed the key since it was registered |
| StoreReadThrough.PromotesIffUndisturbed | cache_store.go:231-254 | in every run a read-through puts what it read into memory iff that is admitted, memory is empty and nothing has disturbed the key since it began; otherwise memory stays as it was |
| StoreReadThrough.CallsLeave | cache_store.go:49-142 | what each half of a write leaves in memory and in the Store, on success and on failure |
| StoreReadThrough.DeleteIsNotUndone | cache.go:1374-1419 | in every run, after a Delete whose Store delete succeeded nothing memory or the Store held before is in memory again |
| StoreReadThrough.QuiescentAgreement | cache_store.go:95-142 | in every run, with no write under way a key in memory equals its Store value, unless the key was missing from memory while a Set was half done or an exposed read-through was current |
| StoreReadThrough.AgreesIffNotOvertaken | cache_store.go:95-142 | in every run, with no write under way a key in memory equals its Store value iff it was set, or promoted from a Store read that no Set or Compute delete has reached the Store after |
| StoreReadThrough.UnexposedPromotionIsCurrent | cache_store.go:231-254 | in every run, a promotion by a read-through that began inside no half-done Set or Compute delete, and that no Compute delete passed over, installs the Store's value or one a Delete is about to remove |
| StoreReadThrough.LateEvictionDisagrees | cache_store.go:49-132 | a run where memory and Store disagree for good although the key was evicted only after the Set's Store write |
| StoreReadThrough.ErasedReturnsIff | compute.go:167-177 | in every run, a value older than a Compute delete is in memory again iff a read-through that read the Store before the Store delete finishes admitted, its token current and memory empty |
| StoreReadThrough.ErasedForGood | compute.go:167-177 | in every run, a Compute delete that completes with no current read-through holding the value is never undone |
| StoreReadThrough.ComputeDeleteUndone | compute.go:167-177 | a run from the empty cache in which a read-through begun between the two halves of a Compute delete puts the value back |
| StoreReadThrough.UncachedComputeDeleteUndone | compute.go:172-175 | a run in which a read-through begun before does so, because Compute found the value in the Store alone and superseded nothing |
| Tiered.InvStep | tiered.go:158-257 | every step keeps whatever L1 holds, or a Get may still put there, no older than the latest completed Delete |
| Tiered.DeleteIsNotUndone | tiered.go:245-257 | in every run, once Delete returns no value either tier held up to its L2 delete is in a tier again |
| Tiered.GuardedCopyIsCurrent | tiered.go:158-178 | in every run, a copy that passes the guard is of L2's current value unless L2 has just dropped it |
| Tiered.L1WatchIff | tiered.go:158-178 | in every run a Get's L1 watch is good iff no step has written L1 since it began |
| Tiered.L2WatchIff | tiered.go:158-178 | in every run its L2 watch is good iff no step has written L2 since that began |
| Tiered.CopiesIffUnwritten | tiered.go:158-206 | in every run a Get may copy to L1 iff it read something, neither tier was written since its watch began, and no other Get is inside the L1 shard lock |
| Tiered.L1IsLatest | tiered.go:158-257 | in every run L1 holds what the latest step that wrote it put there |
| Tiered.L2IsLatest | tiered.go:213-257 | in every run L2 holds what the latest step that wrote it put there |
| Tiered.SetIsBoth | tiered.go:213-243 | what a Set is to put in L2 is what it put in L1 |
| Tiered.Tour | tiered.go:158-257 | a run: set in both tiers, dropped from L1, copied back, deleted from both |
| Tags.InvStep | tagcleanup.go:106-168 | every step keeps the index covering all carried tags and every extra name queued for removal |
| Tags.IndexCoversStorage | tagcleanup.go:43-168 | in every run the index names every key under its tags unless its own Set is under way, and every other name has a queued op |
| Tags.ExactWhenDrained | tagcleanup.go:179-188 | in every run, with no backlog and no Set under way the index is exactly the inverse of the stored tags |
| Tags.RemovalIsDeferred | tagcleanup.go:140-168 | a removal with room in the queue leaves the index alone and queues the entry's tags |
| Tags.Drained | tagcleanup.go:106-138 | from any state, a batch of one takes from the index the op's tags for its key, save those the stored entry carries again, and nothing else |
| Tags.Retagged | tags.go:319-329 | a run in which an update replaces a key's tags and the index names it under the new ones alone |
| Tags.InvalidateTagIsComplete | tags.go:133-158 | in every run, when InvalidateTag returns no entry is stored that the index named under the tag at its snapshot; by IndexCoversStorage that is every entry carrying it, save one whose own Set was under way |
| Tags.VisitsIffNamed | tags.go:133-158 | in every run, between its snapshot and its return InvalidateTag visits a key iff the index named it under the tag, so any other entry outlives the call unless something else removes it |
| Tags.UpdateEscapesInvalidateTag | tags.go:319-329 | a run in which an entry carries the tag before, during and after an InvalidateTag and stays stored: it was between an update's untag and tag |
| Tags.TagIndex.AddTags | tags.go:28-42 | exactly the pairs of the key with the tags are added |
| Tags.TagIndex.RemoveTags | tags.go:50-66 | exactly those pairs are removed and no tag is left without keys |
| Tags.TagIndex.SnapshotOf | tags.go:72-84 | exactly the keys named under the tag |
| AsyncWrites.AccountedStep | asyncwrites.go:157-335 | every step keeps each accepted op in exactly one of queued, applied, replaced |
| AsyncWrites.CountedStep | asyncwrites.go:157-335 | every step keeps the backlog exact |
| AsyncWrites.BacklogIsExact | asyncwrites.go:435-440 | in every run the backlog equals the queued ops plus the applied ones not yet counted off |
| AsyncWrites.AppliedOnce | asyncwrites.go:215-335 | in every run an op is applied only while queued, so never twice nor after it was replaced |
| AsyncWrites.OpIsAsCalled | asyncwrites.go:157-178 | in every run each op is one accepted call, with that call's key and kind |
| AsyncWrites.FinishedIff | cache.go:1463-1475 | in every run Close is done with a shard iff its final drain of it has ended |
| AsyncWrites.FinalDrainSettles | cache.go:1463-1475 | in every run, once Close's drain is done with a shard every op accepted for it was applied or replaced by a later op of its key, and none is queued again |
| AsyncWrites.WindowStaysQueued | asyncwrites.go:297-335 | in every run an op whose Store delete is under way is still queued afterwards: the vanished-op branch is dead |
| Lfu.Policy.OnInsert | lfu.go:51-58 | extends the history; the buckets still agree with the tally of it |
| Lfu.Policy.OnAccess | lfu.go:61-76 | extends the history; the buckets still agree with the tally of it |
| Lfu.Policy.OnRemove | lfu.go:86-104 | extends the history; the buckets still agree with the tally of it |
| Lfu.Policy.NextNonEmpty | lfu.go:198-217 | the least frequency above the given one with a bucket, if any |
| Lfu.Policy.Pick | lfu.go:125-150 | after any history, an entry of least frequency, ties by earliest arrival, among all but the latest insert, or the latest insert if alone; none iff nothing is tracked |
| Lfu.Policy.Victim | lfu.go:110-122 | the same entry, detached |
| Lfu.VictimIsUnique | lfu.go:125-150 | after any history at most one entry is the victim, so Pick is determined |
| Lfu.HeadIsVictim | lfu.go:125-150 | the head of the lowest bucket is least of all tracked entries |
| Lfu.NextIsVictim | lfu.go:125-150 | when the lowest bucket holds only the latest insert, the head of the next is least of the rest |
| ArcPolicy.InsertedKeeps | arc.go:76-102 | a ghost joins t2, a new key t1; the four lists stay disjoint and within bounds |
| ArcPolicy.InsertedAdapts | arc.go:76-102 | a ghost hit moves p towards the list whose ghost it was by the ratio of the ghost lists, at least 1, within 0 and c; a new key leaves it |
| ArcPolicy.AccessedKeeps | arc.go:106-121 | the entry leads t2, nothing else moves between lists |
| ArcPolicy.RemovedKeeps | arc.go:127-143 | exactly that entry leaves |
| ArcPolicy.RebudgetedKeeps | arc.go:58-71 | p is capped, both ghost lists keep exactly the newest that fit the new budget, and nothing else changes |
| ArcPolicy.EvictedKeeps | arc.go:150-178 | something is evicted iff anything is resident, and the ghost list beside it is trimmed to what the budget leaves |
| ArcPolicy.EvictsRecentIff | arc.go:150-161 | the latest insert is evicted iff it is last in its list and the other list is empty |
| ArcPolicy.EvictionSparesInsert | arc.go:150-161 | an eviction straight after an insert takes another entry while there is one |
| ArcPolicy.InsertOutlives | arc.go:150-178 | any number of evictions after an insert leave it resident unless they empty the cache |
| ArcVictim.VictimRule | arc.go:150-178 | t1's least recently used entry goes if t1 holds more than p, else t2's; an empty list, or one whose least recently used entry is the latest insert, leaves it to the other; the victim heads the ghost list beside it, of which exactly the oldest make room |
| ArcVictim.HistoryAgrees | arc.go:76-178 | after any history t1 holds the entries used once and t2 those used again or reborn, each by latest use |
| ArcVictim.VictimIsLru | arc.go:150-178 | after any history the victim is the least recently used of the entries used once if they outnumber p, else of those used again, with the two deferrals |
| ArcPolicy.HeaderBoundIff | arc.go:7-7 | the bound on t1 and b1 the header states survives an insert iff there was room or the key was a ghost |
| ArcPolicy.HeaderBoundFails | arc.go:99-100 | one entry evicted and replaced breaks that bound |
| ArcPolicy.SecondHeaderBoundIff | arc.go:7-7 | the bound on t2 and b2 the header states survives an access iff there was room to spare or the entry was not in t1, and an insert iff there was or the key was no b1 ghost |
| ArcPolicy.SecondHeaderBoundFails | arc.go:106-121 | a run with a budget of 1 that breaks that bound |
| ArcPolicy.Policy.SetBudget | arc.go:58-71 | refines Rebudgeted with its trim loops and keeps every bound of the four lists |
| ArcPolicy.Policy.OnInsert | arc.go:76-102 | refines Inserted, keeps every bound of the four lists, and leaves the insert leading its list |
| ArcPolicy.Policy.OnAccess | arc.go:106-121 | refines Accessed and keeps every bound of the four lists |
| ArcPolicy.Policy.OnRemove | arc.go:127-143 | refines Removed and keeps every bound of the four lists |
| ArcPolicy.Policy.Victim | arc.go:150-178 | refines Evicted and VictimOf and keeps every bound of the four lists; the last branch is dead |
| Sketch.PackedNibbles | internal/sketch/cms.go:130-140 | a write sets its own counter and leaves the one sharing its byte |
| Sketch.HalvedNibbles | internal/sketch/cms.go:100-111 | both counters of a byte are halved independently |
| Sketch.CountMinSketch.constructor | internal/sketch/cms.go:29-56 | a zeroed table whose width is a power of two, at least 64 and ten times the expected keys |
| Sketch.CountMinSketch.Read | internal/sketch/cms.go:121-127 | the counter of the two-dimensional table the bytes stand for |
| Sketch.CountMinSketch.Write | internal/sketch/cms.go:130-140 | exactly one counter of that table changes |
| Sketch.CountMinSketch.Estimate | internal/sketch/cms.go:60-70 | after any history at least the exact count, saturating at 15 and halved by each Reset; equal to it where no other counted hash shares a column |
| Sketch.CountMinSketch.Increment | internal/sketch/cms.go:75-96 | keeps every counter at least the exact count despite conservative update and collisions |
| Sketch.CountMinSketch.Reset | internal/sketch/cms.go:100-111 | halving keeps every counter at least the halved exact count |
| Snapshot.Take | snapshot.go:970-979 | takes from input and limit alike, never past the limit |
| Snapshot.GetBlob | snapshot.go:1007-1016 | a length prefix never reads past the limit, whatever the input |
| Snapshot.GetRecord | snapshot.go:806-877 | whatever the input, a record is read within the limit and passes the reader's checks; before version 3 none slides |
| Snapshot.GetHeader | snapshot.go:747-804 | the header, of version 2 or 3, is read within the limit, whatever the input |
| Snapshot.GetBody | snapshot.go:331-385 | the body is read within the limit, whatever the input; encrypted bodies of version 2 are refused |
| Snapshot.BlobReads | snapshot.go:880-892 | a written field of up to 2 GiB is read back, using exactly its size |
| Snapshot.DecodeInverts | snapshot.go:1062-1133 | for any stack of compressing and encrypting layers, decoding inverts encoding and spends the same budget |
| Snapshot.SplitTakesOutermost | snapshot.go:1137-1155 | the outermost encryption layer is taken out and nothing else, and none iff there is none |
| Snapshot.RecordReads | snapshot.go:806-877 | a written record is read back iff its weight, flags and sliding TTL pass the reader's checks, else refused as corrupt |
| Snapshot.RecordsRead | snapshot.go:370-380 | a written run of records is read back under any limit and budget covering what it took, and spends exactly that |
| Snapshot.HeaderReads | snapshot.go:747-804 | a written header is read back with the same metadata |
| Snapshot.RoundTrip | snapshot.go:100-152 | any snapshot saved under a limit is read back under that limit as the same header, metadata and records, sealed or not, whatever follows it |
| Snapshot.LoadsIffAcceptable | snapshot.go:859-876 | a completed save loads iff every record has a positive weight, no flag but sliding, and a positive sliding TTL if it slides |
| SnapshotFormat.LoadsIffInFormat | snapshot.go:317-380 | an input of any bytes loads as a header and records iff it is in the format, of version 2 or 3, and stands for them: the CRC of header and body in its trailer, this codec's name and the record count in its header, every record acceptable, all within limit and budget |
| SnapshotFormat.LoadsAcceptable | snapshot.go:806-877 | whatever the input, what loads has as many records as its header says, all acceptable |
| SnapshotFormat.WrongTrailer | snapshot.go:358-365 | a completed save with its trailer replaced by any four bytes loads iff they are the same, and is corrupt otherwise |
| SnapshotFormat.TornSaveNeverLoads | snapshot.go:317-380 | no proper prefix of a completed save loads |
| SnapshotFormat.SaveCompletesIff | snapshot.go:100-152 | a save completes iff header and record fields fit, every key and value passes all codec layers, the compressing layers stay within budget, and the whole fits the limit |
| Snapshot.SlidingWithoutTtl | snapshot.go:866-875 | a completed save with a sliding record whose sliding TTL is 0 loads as corrupt |
| Snapshot.SnapReader.TakeBytes | snapshot.go:951-979 | the in-place reader takes exactly what the specified one does; a length past the limit reads nothing |
| Snapshot.SnapReader.Blob | snapshot.go:1007-1016 | the in-place reader agrees with the specified one |
| Snapshot.SnapReader.Blobs | snapshot.go:848-857 | the tag loop agrees with the specified reader |
| Snapshot.LimitWriter.Write | snapshot.go:1043-1050 | all of the bytes are written, or none and the limit stands |
| Snapshot.LimitWriter.WriteAll | snapshot.go:1043-1050 | writing piece by piece succeeds iff the whole fits the limit |
| Snapshot.SortStrings | snapshot.go:670-676 | in place, sorted and a permutation |
| Snapshot.SortedIsUnique | snapshot.go:618-620 | the sorted order of the keys is determined |
| Snapshot.EqualHeadersEqualBytes | snapshot.go:618-644 | equal headers are written as equal bytes, whatever order their metadata maps were ranged over in |
| Accounting.Shard.RemoveLocked | cache.go:1951-2003 | storage, policy, heap and counters lose exactly the entry, also when policy or heap had already given it up |
| Accounting.Shard.Insert | cache.go:1755-1782 | policy, heap and counters gain exactly the entry, the policy as its latest insert |
| Accounting.Shard.Update | cache.go:1714-1737 | policy and heap follow the new expiry and the byte counter the new weight; the heap loses the entry iff it was untracked and its new expiry is negative |
| Accounting.Shard.Replace | snapshot.go:513-552 | the loaded record takes the place of any entry of its key in all four |
| Accounting.Shard.Delete | cache.go:1408-1419 | exactly that key leaves all four |
| Accounting.Shard.EvictOne | cache.go:1826-1846 | exactly the policy's victim leaves all four, of Victim or of shedVictim; one is found whenever either bound asks for one it may take, none if neither does, and the latest insert is spared if asked |
| Accounting.Shard.SweepExpired | expiry.go:61-68 | exactly the entries whose expiry has come leave all four, save those the heap has lost, and their number is returned |
| Accounting.Shard.Clear | cache.go:2148-2177 | all four are emptied |
| Accounting.EvictTracks | cache.go:1826-1846 | a round of eviction gives up one tracked key or none, one whenever the shard is over its budget or the cache over its bounds and the shard may give one, and only then |
| Accounting.SweepLeavesLost | ttlbackend.go:101-111 | a run in which an expired entry is never swept: it had no expiry and was given a negative one |
| Accounting.CountersStaySums | cache.go:1422-1447 | changing one shard's storage changes the sums over all shards by what that shard gained |
| Accounting.Cache.StillSums | cache.go:1422-1447 | a locked section that moves the counters by what its shard gained leaves them equal to the sums over all shards |
| Accounting.Cache.constructor | cache.go:452-459 | an empty cache of distinct shards sharing counters at 0 |
| Accounting.Cache.Insert | cache.go:1755-1782 | the entry and byte counters stay the sums over all shards; that shard gains exactly the entry |
| Accounting.Cache.Update | cache.go:1714-1737 | the counters stay the sums; that shard's entry is exactly the new one |
| Accounting.Cache.Replace | snapshot.go:513-552 | the counters stay the sums; that shard holds exactly the loaded record for its key |
| Accounting.Cache.Delete | cache.go:1408-1419 | the counters stay the sums; that shard loses exactly the key |
| Accounting.Cache.SweepExpired | expiry.go:61-68 | the counters stay the sums; that shard loses exactly its expired entries the heap has not lost |
| Accounting.Cache.Clear | cache.go:2148-2177 | the counters stay the sums; that shard is emptied |
| Accounting.Cache.EvictOne | cache.go:1828-1845 | the counters stay the sums; a round evicts exactly one entry iff the shard is over its budget, or holds more than keep while the cache is over its entry or byte bound |
| Accounting.Cache.EvictOverBudgetLocked | cache.go:1826-1846 | the counters stay the sums; the loop ends with the shard within its budget, and within keep or the cache within its entry and byte bounds, having only removed entries, as many as it returns, none if none was due and no more than was due, and with keep not the latest insert |

## Left out

- Files, temp-file rename, auto-save and auto-load, loggers, tracers, expvar, event channels and hooks: plumbing.
- gob, JSON, gzip, AES-GCM and CRC: functions of an environment, inverse where a round trip needs it.
- Hash functions: any function from keys to slots, shards or columns.
- LRU, FIFO, 2Q, TinyLFU, diagnostics, histograms, views: would add easy members.
- Sync's bookkeeping of hooks, callback timeouts, panic recovery, the rate limiter, refresh-ahead thresholds.
- Snapshot.GetHeader: the schema-version check, SnapshotMarshaler values and what Load does with the records afterwards are not modelled. Round trips are for version 3, which is what Save writes.
- Snapshot composite readers and writers: functions on values; only the primitives, the tag loop and the sort are in place.
- Negative caching in byte accounting.
- S3Cache.Cache.EvictOverBudgetLocked: the entry bound only; Accounting.Cache.EvictOverBudgetLocked has both bounds.
- S3Cache.Cache.ShedPass: the entry bound only; Shed.QuiescentWithinBudget has both bounds, over concurrent sweeps.
- S3Cache.Cache.ShedOverBudget: the entry bound only, as for S3Cache.Cache.ShedPass.
- S3Cache.Cache.Get: the policy's part of a hit; expiry on access and misses change no policy state but through Delete.
- S3Cache.Cache.Set: for a sequential Set with AdmitAlways and no byte bound; concurrent sweeps are in Shed. Resize is not among the operations of S3Cache.
- Loader, ReadMap: one shard; keys of other shards share none of its state.
- StoreReadThrough, Tiered, KeyLocks: one key; a step on another key appears as an eviction at most. Callers that join a read-through return its value and change nothing.
- Tiered.DeleteIsNotUndone: a watch is a flag set by every superseding section of its tier, as StoreReadThrough.WatchedIffLive justifies; Tiered.Set is a step but carries no agreement claim, because promotion does not recheck L1.
- StoreReadThrough.QuiescentAgreement: one way only, because a key missing from memory at the wrong moment need not lead to a disagreement; StoreReadThrough.AgreesIffNotOvertaken is the exact condition.
- ReadMap.LockFreeReadsLinearize: one call at a time; a section under way at an instant of the call counts as not yet begun or as done. A removal's invalidation and publication are one step, since a reader between them falls through to the lock. Batches of queued async writes, which may edit and remove a key in one section, are not among the sections.
- Shed: a shard's policy yields a victim whenever it holds an entry; in-shard evictions inside a write are part of the write's arbitrary effect.
- Tags.InvalidateTagIsComplete: does not say that only carrying entries go, because InvalidateTag removes whatever entry is stored under a key the index names.
- StoreReadThrough.ErasedReturnsIff: Compute's Store read and promotion are one step, because both are under the key's lock.
- Accounting: the policy is S3-FIFO and the TTL backend the heap; Resize is not among the operations.
- AsyncWrites: what an applied op does to storage and the Store is not modelled, only that it is applied.
- Linked lists are sequences and intrusive back-pointers are maps; pointer updates inside a list are not modelled, except the heap's index and the wheel's slot of each entry.
- Machine integers are unbounded except where a width is the point: bytes, nibbles, snapshot fields and limits.
