# Layercache: verified model

Layercache is a multi-layer cache for Node.js. This project models its in-process concurrency control and the
index, envelope and key algorithms underneath it, and proves their main properties for every input, every run and
every interleaving. `dafny verify dfyconfig.toml` checks everything.

- **Fenced writes** (`Epochs`, `WriteScheduler`, `WriteBehind`, `FencedWrites`, `CommittedEntries`,
  `WriteCompletion`, `UnfencedRewrites`). A write carries a
  fence, the pair of clear epoch and key epoch read when its operation began. It queues on the promise chains of its
  keys, checks the fence before and after writing the layers, and cleans up what it wrote if the fence went stale.
  Deletes and clears move the epochs at once and then delete from the layers without joining the chains. `Epochs` has
  the mutable table with its pruning and wrap-around; `WriteScheduler` the multi-key FIFO lock with its three limits;
  `FencedWrites` a transition system over both, in which every code section between two awaits is one step and every
  layer call takes effect in a step of its own; `CommittedEntries` what becomes of entries whose write committed;
  `WriteCompletion` which cells a write stores and that it can always end; `UnfencedRewrites` what the re-dating of entries outside the protocol can do. A fence has a serial, `at`: the number of invalidations that had begun when it was read. The safety theorems are about
  these serials, so they do not mention epochs.
- **Rate limiter** (`RateLimiter`). Per-bucket FIFO queues with a concurrency cap, a sliding-window rate cap, one
  drain microtask or timer, cleanup timers and bucket eviction.
- **Single flight** (`StampedeGuard`, `SingleFlight`). The local guard with its timeout path, the Redis lease with
  late commands and lapsing leases, and the waiter that polls and re-enters the coordinator.
- **Indexes and layers** (`PatternMatcher`, `TagIndex`, `MemoryLayer`). The glob matcher against a recursive
  specification, the heap trie against a plain set of keys, the memory layer against the history of its operations, and
  LRU inclusion over whole runs.
- **Values and keys** (`StoredValue`, `Coherence`, `Circularity`, `StableSort`, `Json`, `Normalization`, `Meaning`,
  `KeyEncoding`). Envelope lifetimes, coherence of a layer stack under sequential use, and generated keys: each key
  parses back to the normalized arguments, and two calls share a key exactly when their arguments mean the same.

Classes follow the source's objects; each method is tied to a function of the old state, and the lemmas are about
those functions and their runs. `OrderedMap` is the insertion-ordered JavaScript `Map`.

Where the code and its comments disagree, the model follows the code:

- `pruneKeyEpochsIfNeeded` runs once per bump call, so the limit of 50,000 entries is restored only up to 55,556
  entries, or when the counter wraps around (`Epochs.PruneSize`, `Epochs.BumpSize`).
- A disposed rate limiter can still have a cleanup timer: a task that ends after `dispose` may arm one
  (`RateLimiter.Limiter.Finish`).
- A delete takes effect on the layers in its own time, and so does the delete by which a read removes an expired
  entry; either can take an entry that a later write has stored and committed with a current fence
  (`CommittedEntries.EarlierDeleteCanTakeIt`, `CommittedEntries.EarlierReadCanTakeIt`). `CommittedEntries.TakenIffDue`
  says exactly when, and `CommittedEntries.CommittedEntryStays` what holds once the earlier deletes are done.
- Sliding TTLs and soft expiry set an entry again without a fence, so they can bring back an entry that was deleted
  in between (`UnfencedRewrites.RewriteCanRevive`); `UnfencedRewrites.RewriteIsSafeIff` says exactly when they do not.
- The main loop of `matchLinear` is quadratic in the worst case, not linear (`PatternMatcher.WorstTakes`,
  `PatternMatcher.LoopIsQuadratic`).
- An envelope with a stale window but no fresh TTL is made by the constructor and refused by the validator, so a
  reader is given the envelope object itself. `StoredValue.CreatedIsAccepted` and `Coherence.WrittenIsServedIff` say
  exactly when the value comes back.
- Two `Map` arguments with the same entries can get different keys when two of their keys have one normal form, and so
  can two `Set` arguments with elements that `localeCompare` ranks as equal, such as an accented letter written in two
  ways; `Normalization.MapIgnoresOrderIff` and `Normalization.SetIgnoresOrderIff` say exactly when order is ignored.
- The validator checks an envelope's TTL and windows one by one, so refreshing an accepted envelope can make one that is
  refused (`StoredValue.RefreshIsAcceptedIff`).
- `maxKnownKeys: 0` never prunes (`TagIndex.ZeroLimitNeverPrunes`).
- Leases of at most 100 ms are never renewed unless an interval is given (`SingleFlight.TimerOutrunsLease`).

## Model

| member | source | states |
|---|---|---|
| Epochs.ChangeMoves | src/internal/CacheStackMaintenance.ts:65-97 | A clear or bulk bump moves no key's fence back and moves the fence of every key it invalidates strictly forward in lexicographic order, even if the same call prunes the key again or wraps the counter around |
| Epochs.OutdatedForever | src/internal/CacheStackMaintenance.ts:87-97 | ABA freedom: a fence found outdated once is found outdated after every further run of clears and bumps |
| Epochs.CurrentMeansUntouched | src/internal/CacheStackMaintenance.ts:87-97 | A fence still current at the end of a run was current at every point of it, and no change in between invalidated its key |
| Epochs.PruneMoves | src/internal/CacheStackMaintenance.ts:258-262 | Rotating the absent token makes pruning safe: dropped keys do not fall back to an older fence |
| Epochs.PruneSize | src/internal/CacheStackMaintenance.ts:243-262 | One prune drops exactly the oldest tenth, and restores the limit if and only if there were at most 55,556 entries or the counter wrapped around, which empties the table |
| Epochs.BumpSize | src/internal/CacheStackMaintenance.ts:79-85 | For the caller: without a wrap-around a bulk bump ends within the limit if and only if the table's keys and the bumped keys together number at most 55,556 |
| Epochs.FirstBumpSize | src/internal/CacheStackMaintenance.ts:79-85 | A first bulk bump of different keys breaks the limit from the 55,557th key on |
| Epochs.BumpSparesIff | src/internal/CacheStackMaintenance.ts:79-85 | A bulk bump leaves the fence of another key as it is if and only if the counter does not wrap around and either nothing is pruned or the key has an entry with at least a tenth of all entries before it |
| Epochs.EpochTable.BumpKeyEpochs | src/internal/CacheStackMaintenance.ts:79-85 | The table's loops compute the specified bump of a list of keys, duplicates included, about which `ChangeMoves` and `BumpSparesIff` say what happens to every key's fence |
| Epochs.EpochTable.PruneKeyEpochsIfNeeded | src/internal/CacheStackMaintenance.ts:243-262 | The deletion loop and the token rotation compute the specified prune |
| Epochs.EpochTable.AllocateKeyEpoch | src/internal/CacheStackMaintenance.ts:264-273 | Allocation with wrap-around at the largest safe integer, which opens a new clear epoch |
| Epochs.EpochTable.BeginClearEpoch | src/internal/CacheStackMaintenance.ts:65-69 | A clear opens a new clear epoch and forgets all key epochs |
| Epochs.EpochTable.IsWriteOutdated | src/internal/CacheStackMaintenance.ts:87-97 | A write is outdated exactly when no current fence agrees with the epochs it expects; an epoch it does not name never outdates it |
| WriteScheduler.RunIsValid | src/internal/CacheStackMaintenance.ts:120-171 | In every run all three limits hold, unit and per-key counters are exactly the open operations' keys, and chains and counters have the same keys |
| WriteScheduler.UnitsAreDepths | src/internal/CacheStackMaintenance.ts:141-167 | In every run `pendingWriteUnits` is the sum of `pendingWritesByKey` |
| WriteScheduler.MutualExclusion | src/internal/CacheStackMaintenance.ts:146-158 | Two operations that share a key are never both between start and release |
| WriteScheduler.AdmissionOrder | src/internal/CacheStackMaintenance.ts:146-158 | An operation on a key starts only after every earlier admitted operation on that key was released |
| WriteScheduler.NoWaitCycle | src/internal/CacheStackMaintenance.ts:146-151 | The wait-for relation on tails has no cycle: along every path of it the admission numbers fall |
| WriteScheduler.EarliestOpenSlotAdvances | src/internal/CacheStackMaintenance.ts:146-171 | Whatever the others do, the earliest open operation can take its next step |
| WriteScheduler.StepsUseUpWork | src/internal/CacheStackMaintenance.ts:146-171 | Every step but an admission uses up one unit of a finite amount of work |
| WriteScheduler.AdmittedCanStart | src/internal/CacheStackMaintenance.ts:151-158 | From every reachable state a waiting operation can be brought to run by letting earlier ones finish, with no new admission |
| WriteScheduler.IdleIsEmpty | src/internal/CacheStackMaintenance.ts:159-170 | When all operations are released, chains and counters are empty |
| WriteScheduler.RefusedOnlyAtALimit | src/internal/CacheStackMaintenance.ts:125-139 | An admission is refused exactly when admitting would exceed one of the limits |
| WriteScheduler.Scheduler.Admit | src/internal/CacheStackMaintenance.ts:116-158 | The synchronous part admits, refuses or runs unscheduled as specified, and a refusal changes nothing |
| WriteScheduler.Scheduler.CheckLimits | src/internal/CacheStackMaintenance.ts:125-139 | The three checks in the source's order, over the distinct keys |
| WriteScheduler.Scheduler.Release | src/internal/CacheStackMaintenance.ts:159-170 | The finally callback gives back exactly what the admission took and removes only tails that are its own |
| WriteBehind.Queue.Enqueue | src/internal/CacheStackMaintenance.ts:174-195 | An operation is refused exactly when the queue is full, which it only is while a flush is under way; an accepted one starts a flush exactly if none is under way and the queue has reached the batch size or its limit |
| WriteBehind.Queue.EndBatch | src/internal/CacheStackMaintenance.ts:210-218 | A flush goes on for as long as anything is queued |
| WriteBehind.Queue.Clear | src/internal/CacheStackMaintenance.ts:65-69 | A clear drops exactly the queued operations and leaves the batch under way |
| WriteBehind.Queue.FlushAll | src/CacheStack.ts:1574-1596 | Every operation that was accepted and not dropped runs exactly once, in the order of acceptance |
| FencedWrites.ReachableIsValid | src/internal/CacheStackMaintenance.ts:99-172 | Every interleaving of single, batch, backfill and write-behind writes, deletes, clears, reads that delete what they find expired, evictions and layer steps keeps the protocol's invariants |
| FencedWrites.StaleWriteSafety | src/internal/CacheStackLayerWriter.ts:48-195 | Once an invalidation has deleted a cell and no operation is open on its key, an entry there was stored by a write whose fence was read after that invalidation began |
| FencedWrites.NewerWritesSurvive | src/internal/CacheStackLayerWriter.ts:85-104 | A write that some invalidation made stale never overwrites or deletes an entry whose fence was read after that invalidation |
| FencedWrites.PassedCheckMeansUntouched | src/internal/CacheStackMaintenance.ts:106-112 | A check that passes proves that no invalidation of the key has begun since the fence was read |
| FencedWrites.InvalidationSparesIff | src/internal/CacheStackMaintenance.ts:79-97 | In every run, an invalidation of other keys leaves the fence of an open write current exactly under that condition, and so always while the table has room |
| WriteCompletion.EndedHasStored | src/internal/CacheStackLayerWriter.ts:48-195 | In every run, the cells that an ended write has stored are exactly those of its layers and of its keys whose fences were current when it began; a key it reports committed it stored in all its layers |
| WriteCompletion.RunningCanEnd | src/internal/CacheStackLayerWriter.ts:48-195 | Whatever a running operation still has to store, check or clean up, its own steps alone can bring it to its end |
| WriteCompletion.WriteRunsThrough | src/internal/CacheStackLayerWriter.ts:124-195 | From any valid state with its keys free and room within the limits, a single, multi-layer or bulk write can run through; then every cell of its layers and of its keys with a current fence holds its entry, which stands, and every other cell is as it was |
| FencedWrites.TimedOutFetchIsFenced | src/CacheStack.ts:191-195 | An operation with a fence from before a guard timeout that had not passed its check by then ends not committed and leaves nothing of its own, however the run goes on |
| FencedWrites.TimedOutFetchSparesRetry | src/internal/CacheStackReader.ts:554-568 | Whatever a timed-out fetch still stores or cleans up, it never touches an entry whose fence was read after the timeout |
| CommittedEntries.CommittedEntryStays | src/internal/CacheStackMaintenance.ts:99-114 | The positive half: once the unfenced deletes from before are done, those of earlier invalidations and those of readers that found an expired entry in the cell, the entry of a committed write stays for as long as its fence is current, unless the layer evicts it, another operation stores over it, or it is itself found expired |
| CommittedEntries.TakenIffDue | src/internal/CacheStackInvalidationSupport.ts:40-70 | In every valid state, for an entry whose operation committed with a current fence: some delete or cleanup can empty the cell next if and only if an invalidation from before the fence has yet to delete it, a reader can if and only if it found an expired entry there and has yet to delete it, and nothing else but an eviction can |
| CommittedEntries.StandingEntryLostIff | src/internal/CacheStackLayerWriter.ts:85-104 | Step by step: such an entry is lost if and only if the step evicts it, is another operation's store to its cell, or is an unfenced delete of the cell; a cleanup never takes it |
| CommittedEntries.SecureEntryLostIff | src/internal/CacheStackLayerWriter.ts:85-104 | Once no earlier delete is under way, only by an eviction or another operation's store |
| CommittedEntries.SweptWasSeenBefore | src/internal/CacheStackReader.ts:307-315 | In every run, a reader about to delete a cell either found there the very entry it is going to take, or looked before that entry was stored |
| CommittedEntries.CleanedUpIsOutdated | src/internal/CacheStackLayerWriter.ts:108-118 | A cleanup deletes only entries whose own fence is outdated, also when it reaches layers its write did not |
| CommittedEntries.UnhinderedWriteCommits | src/internal/CacheStackLayerWriter.ts:85-104 | A write with a current fence, on a key nobody works on and within the limits, runs through and commits its entry, whatever unfenced deletes are under way |
| CommittedEntries.CommittedIsSecureIff | src/internal/CacheStackLayerWriter.ts:85-104 | That entry is secure from the start if and only if none of those deletes is of its cell and from before |
| CommittedEntries.EarlierDeleteCanTakeIt | src/CacheStack.ts:1329-1341 | A run in which a delete that began before a write's fence is next to delete the entry of that committed write |
| CommittedEntries.EarlierReadCanTakeIt | src/internal/CacheStackReader.ts:312-315 | A run in which a reader that found the entry before expired is next to delete the entry of a committed write |
| UnfencedRewrites.RewriteIsSafeIff | src/internal/CacheStackReader.ts:700-713 | In every run, setting again an entry seen before keeps stale-write safety if and only if no invalidation since the entry's fence has deleted the cell or an operation is open on the key; so it does while that fence is current |
| UnfencedRewrites.RewriteCanRevive | src/internal/CacheStackInvalidationSupport.ts:83-94 | A run after which such a rewrite brings back an entry whose deletion is done |
| RateLimiter.WindowBound | src/internal/FetchRateLimiter.ts:286-309 | Among starts that are spaced, every half-open window of one interval holds at most `maxPerInterval` |
| RateLimiter.RatesHold | src/internal/FetchRateLimiter.ts:172-244 | In every good state, for every key: accepted items are the started ones followed by the queued ones, started but unfinished ones never exceed the cap, there is one start time for every started item, no window of the interval's length holds more than the rate allows, and all running tasks are counted by one bucket object |
| RateLimiter.StartKeepsGood | src/internal/FetchRateLimiter.ts:207-228 | A start when fewer than the maximum are remembered keeps spacing, counters, anchoring and order |
| RateLimiter.ForgetKeepsGood | src/internal/FetchRateLimiter.ts:311-319 | Pruning starts that are an interval old loses nothing the rate bound needs |
| RateLimiter.DropKeepsGood | src/internal/FetchRateLimiter.ts:344-389 | Forgetting an idle bucket with no remembered starts is safe: its full history stays spaced |
| RateLimiter.FinishKeepsGood | src/internal/FetchRateLimiter.ts:230-239 | A task that finishes is counted by the bucket its key leads to |
| RateLimiter.ForgettingIsSafe | src/internal/FetchRateLimiter.ts:311-319 | What is left of a bucket's memory after pruning is still the end of the full history, and all before it is an interval old |
| RateLimiter.RejectedInLine | src/internal/FetchRateLimiter.ts:117-126 | Rejecting what is queued accounts for every accepted item: started, in order, or rejected |
| RateLimiter.AllAreDisarmed | src/internal/FetchRateLimiter.ts:110-115 | Clearing the timers of the buckets in the table leaves no cleanup timer armed, since a bucket outside it never has one |
| RateLimiter.OthersStayFull | src/internal/FetchRateLimiter.ts:186-207 | Starting a task of one key makes no other key startable |
| RateLimiter.Limiter.Schedule | src/internal/FetchRateLimiter.ts:48-100 | A task runs directly exactly if it has neither a cap nor both rate options; otherwise an accepted item goes to the end of its own queue and a drain is due at once, and a disposed limiter, a bucket table full of busy buckets or a full queue accepts nothing and changes no queue |
| RateLimiter.Limiter.WaitTime | src/internal/FetchRateLimiter.ts:286-309 | Zero only if a start is allowed now; otherwise no start is allowed, and unless a running task is waited for the wait ends when the oldest remembered start is an interval old |
| RateLimiter.Limiter.Drain | src/internal/FetchRateLimiter.ts:172-244 | Every queue either loses exactly its head, which starts, or may not start anything; items left over have an armed microtask or timer, and an armed timer waits for no bucket longer than a millisecond or, counted from the beginning of the drain, until its oldest remembered start is an interval old |
| RateLimiter.Limiter.FireMicrotask | src/internal/FetchRateLimiter.ts:256-259 | The microtask drains and never leaves queued work without a wake-up |
| RateLimiter.Limiter.FireTimer | src/internal/FetchRateLimiter.ts:275-282 | The timer drains and never leaves queued work without a wake-up |
| RateLimiter.Limiter.Finish | src/internal/FetchRateLimiter.ts:230-239 | Finishing a task gives back its place and touches no other bucket; before disposal a drain is then due, after it a cleanup timer is armed exactly if there is an interval, the bucket remembers a start and this was its last task |
| RateLimiter.Limiter.EvictIdleBuckets | src/internal/FetchRateLimiter.ts:344-355 | Idle buckets go, and no others, until nine tenths of the limit are left or none is idle |
| RateLimiter.Limiter.FireCleanup | src/internal/FetchRateLimiter.ts:374-386 | A cleanup timer, before or after disposal, removes its own idle bucket and never a later bucket of the same key |
| RateLimiter.Limiter.Dispose | src/internal/FetchRateLimiter.ts:102-127 | Exactly the queued items are rejected, none of them started, and no timer is armed when the first call returns |
| PatternMatcher.MatchLinear | src/invalidation/PatternMatcher.ts:15-53 | True exactly when the recursive specification of `*` and `?` matches; the main loop iterates exactly as often as the search has steps, at most (pattern length + 1) times value length times |
| PatternMatcher.LaterStarIsEnough | src/invalidation/PatternMatcher.ts:25-45 | Going back only to the last star loses no match |
| PatternMatcher.StepsAreBounded | src/invalidation/PatternMatcher.ts:21-46 | From every state of the loop, what was spent so far and the steps still to come are within that bound |
| PatternMatcher.WorstTakes | src/invalidation/PatternMatcher.ts:21-46 | A star, `m` letters and a `b` on `n` letters take exactly `1 + (n - m) * (m + 1) + m` iterations |
| PatternMatcher.LoopIsQuadratic | src/invalidation/PatternMatcher.ts:21-46 | So for inputs of every size the iterations exceed half the product of the two lengths |
| TagIndex.Index.Touch | src/invalidation/TagIndex.ts:42-46 | The known keys change as specified (refresh, oldest dropped at the limit) and trie, known keys and tags stay in agreement |
| TagIndex.Index.Track | src/invalidation/TagIndex.ts:51-75 | The key's tags are replaced in both maps, an empty list keeps the old ones, and no other key's tags change |
| TagIndex.Index.Remove | src/invalidation/TagIndex.ts:279-300 | The key leaves the known keys, the trie and every tag, and nothing else changes |
| TagIndex.Index.RemovePath | src/invalidation/TagIndex.ts:302-332 | Removing a key's path leaves no dead branch and every other key's path |
| TagIndex.Index.InsertPath | src/invalidation/TagIndex.ts:178-206 | Inserting a path adds exactly one terminal |
| TagIndex.Index.KeysForPrefix | src/invalidation/TagIndex.ts:103-112 | Exactly the known keys with the prefix, each once |
| TagIndex.Index.MatchPattern | src/invalidation/TagIndex.ts:136-146 | Exactly the known keys that match the glob, each once, though only the subtree of the literal prefix is searched |
| TagIndex.Index.CollectFromNode | src/invalidation/TagIndex.ts:219-235 | The explicit-stack walk finds every key below a node exactly once |
| TagIndex.Index.KeysForTag | src/invalidation/TagIndex.ts:87-89 | The keys of a tag are those that have the tag |
| TagIndex.Index.TagsForKey | src/invalidation/TagIndex.ts:129-131 | The tags of a key are those that have the key |
| TagIndex.Index.MatchHasPrefix | src/invalidation/TagIndex.ts:259-262 | A matching key begins with the pattern's literal beginning |
| TagIndex.Index.EveryNodeLeadsToAKey | src/invalidation/TagIndex.ts:302-332 | No dead branches: every node is on the path of some known key |
| TagIndex.TouchStaysWithinLimit | src/invalidation/TagIndex.ts:264-277 | A touch keeps the number of known keys within a limit of at least one |
| TagIndex.TouchMovesToEnd | src/invalidation/TagIndex.ts:178-193 | A refreshed key goes behind all others with the current time, a prune drops a tenth of the limit from the front, and every other key keeps its place and time; within the interval nothing changes |
| TagIndex.TouchKeepsTimeOrder | src/invalidation/TagIndex.ts:264-277 | So with a clock that does not go back, what a touch drops was refreshed no later than anything it keeps |
| TagIndex.ZeroLimitNeverPrunes | src/invalidation/TagIndex.ts:264-277 | A limit of zero limits nothing |
| StampedeGuard.Guard.Execute | src/stampede/StampedeGuard.ts:42-78 | A caller joins the registered entry, starts a task if there is room, or is rejected, and every counter follows |
| StampedeGuard.Guard.Settle | src/stampede/StampedeGuard.ts:125-131 | A settled task is no longer counted; its entry goes if nobody waits on it and it is still registered |
| StampedeGuard.Guard.ReleaseEntry | src/stampede/StampedeGuard.ts:117-123 | The last caller of a settled entry removes it, and only it |
| StampedeGuard.Guard.ReleaseTimedOut | src/stampede/StampedeGuard.ts:81-87 | A timeout detaches the registered entry and calls the hook once for it |
| StampedeGuard.Guard.FireTimer | src/stampede/StampedeGuard.ts:93-102 | A caller's timer times out its own entry only if that is still registered |
| StampedeGuard.Guard.TasksWithinLimit | src/stampede/StampedeGuard.ts:52-67 | Unsettled tasks, timed-out ones included, never exceed `activeTasks` or `maxInFlight` |
| StampedeGuard.Guard.OneLiveTask | src/stampede/StampedeGuard.ts:42-87 | Of two unsettled tasks of one key, one has timed out |
| StampedeGuard.Guard.TimedOutIsDetached | src/stampede/StampedeGuard.ts:81-87 | A timed-out entry is never registered again and its hook ran exactly once |
| StampedeGuard.Guard.EmptyWhenQuiet | src/stampede/StampedeGuard.ts:117-131 | With all tasks settled and all callers gone, nothing is retained |
| SingleFlight.RunIsValid | src/singleflight/RedisSingleFlightCoordinator.ts:45-87 | Every run keeps: a lock belongs to its token's execution, and an unreleased execution holds its lock or its lease has lapsed |
| SingleFlight.OnlyTheOwnerTouchesALock | src/singleflight/RedisSingleFlightCoordinator.ts:14-26 | A live lock is deleted only by its own execution's release and extended only by its own renewal |
| SingleFlight.WorkerCanRelease | src/singleflight/RedisSingleFlightCoordinator.ts:62-68 | A worker can always finish and release, which frees its lock if it still has it and touches no other |
| SingleFlight.OverlapMeansLapse | src/singleflight/RedisSingleFlightCoordinator.ts:45-68 | In every run, two executions of one key at work at once means that the earlier one's lease lapsed, unreleased, before the later one acquired |
| SingleFlight.ExclusiveWhileLeased | src/singleflight/RedisSingleFlightCoordinator.ts:45-68 | While no working execution's lease has lapsed, at most one per key is at work |
| SingleFlight.OverlapCanHappen | src/singleflight/RedisSingleFlightCoordinator.ts:55-65 | A run in which a lapsed lease does lead to two workers |
| SingleFlight.SecondWorkerIff | src/singleflight/RedisSingleFlightCoordinator.ts:45-68 | In every valid state with a worker, a new execution with a positive lease comes to work beside it if and only if the key has no live lock, and waits otherwise |
| SingleFlight.TimerOutrunsLease | src/singleflight/RedisSingleFlightCoordinator.ts:70-87 | A renewal and a timer interval later the lease is still live; by default there is a timer exactly for leases over 100 ms |
| SingleFlight.WaitForFreshValue | src/internal/CacheStackReader.ts:418-475 | The waiter ends, returns the first fresh value it finds, enters the coordinator exactly once more if it finds none and may, times out no earlier than its deadline, and reads the layers at most once per millisecond up to its deadline, given or `timeoutMs` away; after losing twice it does not read again |
| MemoryLayer.LruInclusion | src/layers/MemoryLayer.ts:88-142 | After any run of operations the larger of two LRU layers holds every entry of the smaller, item for item, and both are within their limits |
| MemoryLayer.RunTellsPast | src/layers/MemoryLayer.ts:88-142 | After any run, under every policy: each entry holds the value, the expiry and the time of its key's last write, counts the reads since, and the entries are in the order of their last uses |
| MemoryLayer.WriteEvicts | src/layers/MemoryLayer.ts:130-142 | A write with room, or of a present key, removes nothing; otherwise exactly one entry goes, and none that stays is less used by the policy's measure; under LRU and FIFO the key written stays |
| MemoryLayer.StaysIff | src/layers/MemoryLayer.ts:88-128 | Every other operation removes exactly what it should: an expired entry it meets, the deleted key, everything, or all expired entries |
| MemoryLayer.ReadAnswers | src/layers/MemoryLayer.ts:88-111 | After any run a key that is there reads as the value last written if its TTL has not run out, and as nothing otherwise |
| MemoryLayer.EvictOne | src/layers/MemoryLayer.ts:277-289 | Evicting the oldest entry of both layers keeps the inclusion |
| MemoryLayer.ColdestIsMinimal | src/layers/MemoryLayer.ts:291-309 | The minimum scan of LFU finds a least used entry, the oldest among those |
| MemoryLayer.Layer.GetEntry | src/layers/MemoryLayer.ts:88-111 | A read answers with the value last written exactly if the key is there and that write's TTL has not run out; it deletes an expired entry and moves a hit to the end under LRU |
| MemoryLayer.Layer.Has | src/layers/MemoryLayer.ts:147-157 | Answers as a read would; an expired entry goes, and no entry moves |
| MemoryLayer.Layer.Set | src/layers/MemoryLayer.ts:130-142 | A write, with the layer's TTL if none is given, replaces the entry at the end and evicts victims until the limit holds; it goes down in the history that later reads are specified by |
| MemoryLayer.Layer.Evict | src/layers/MemoryLayer.ts:277-309 | One eviction removes the policy's victim |
| MemoryLayer.Layer.PruneExpired | src/layers/MemoryLayer.ts:311-321 | The prune removes exactly the expired entries and keeps the order of the rest |
| StoredValue.CreatedIsAccepted | src/internal/StoredValue.ts:22-119 | A created envelope is accepted by the validator if and only if its options are sound: windows only beside a fresh TTL, and a life of at most ten years |
| StoredValue.WindowWithoutTtlIsServedRaw | src/internal/StoredValue.ts:84-86 | A window without a TTL is served as the raw envelope object, fresh at any time |
| StoredValue.UnacceptedIsOpaque | src/internal/StoredValue.ts:121-211 | What the validator does not accept is fresh at any time, has no remaining life, is left alone by refreshing and expiring, and is served as it is |
| StoredValue.WindowsOutlastFreshness | src/internal/StoredValue.ts:22-89 | The windows of an accepted envelope, however made, end no earlier than its freshness |
| StoredValue.RefreshIsAcceptedIff | src/internal/StoredValue.ts:184-197 | Refreshing an accepted envelope, however made, gives an accepted one if and only if its TTL and each window together are within ten years |
| StoredValue.SoundIsAcceptedForever | src/internal/StoredValue.ts:22-89 | An envelope with sound options is accepted at every later time |
| StoredValue.StateMovesForward | src/internal/StoredValue.ts:121-139 | The state of an accepted envelope never moves back towards fresh |
| StoredValue.Lifetime | src/internal/StoredValue.ts:91-139 | From options alone: fresh for the TTL, then stale for each window, then expired |
| StoredValue.LifetimeOnceExpired | src/internal/StoredValue.ts:199-211 | Once expired by force: in its stale windows, which still count from the creation, and then expired |
| StoredValue.RemainingIsTimeToExpired | src/internal/StoredValue.ts:153-169 | On whole milliseconds the remaining TTL is exactly the time to expired |
| StoredValue.RemainingCoversLife | src/internal/StoredValue.ts:153-169 | In general it rounds up by less than a millisecond and is at least one |
| StoredValue.RemainingFreshIsTimeFresh | src/internal/StoredValue.ts:171-182 | On whole milliseconds the remaining fresh TTL is exactly the time for which the value stays fresh, and zero from then on |
| StoredValue.RefreshIsRecreate | src/internal/StoredValue.ts:184-197 | Refreshing a created envelope equals creating it at the new time |
| StoredValue.ExpireEndsFreshness | src/internal/StoredValue.ts:199-211 | Expiring keeps value and windows, is never fresh again, and changes no later state |
| Coherence.Stack.Set | src/internal/CacheStackLayerWriter.ts:48-106 | A write puts its own envelope, with the layer's TTL, in every layer, which keeps all entries coherent with the latest writes and every other key's entries as they are |
| Coherence.Stack.Get | src/internal/CacheStackReader.ts:289-350 | A read hits if and only if some layer retains the key, returns the latest value written exactly when the envelope is accepted, fills the layers above and deletes what it found expired; no layer loses another key, or this one as long as it could be served |
| Coherence.Stack.FindHit | src/internal/CacheStackReader.ts:300-322 | The layer loop stops at the first layer that answers and sweeps those before it |
| Coherence.Stack.Backfill | src/internal/CacheStackReader.ts:221-277 | Exactly the layers above the hit get its entry, for its remaining life |
| Coherence.Stack.Delete | src/CacheStack.ts:1329-1341 | A deleted key is in no layer |
| Coherence.Stack.Expire | src/internal/CacheStackInvalidationSupport.ts:71-101 | Soft invalidation keeps every accepted entry with its value and windows until, to the millisecond, its last open window ends, and touches no other key; a read right after it gives the value due if and only if some layer's entry has a stale window open, and the result says whether any layer had the key |
| Coherence.ReplyIsDue | src/internal/CacheStackReader.ts:333-340 | A reply is the value due if and only if the envelope it came in is accepted |
| Coherence.WrittenIsServedIff | src/internal/CacheStackLayerWriter.ts:232-265 | Right after a write every layer answers, with the value written if and only if the options are sound |
| Coherence.WrittenLivesAsLong | src/internal/CacheStackLayerWriter.ts:249-264 | A layer keeps a sound write for its envelope's life, to the millisecond, and without a TTL for the layer's default |
| Coherence.FilledServes | src/internal/CacheStackReader.ts:243-248 | A filled layer serves what the layer below served, and lets go of it within a millisecond of the envelope's end |
| Coherence.ExpiredIsNotFresh | src/internal/CacheStackInvalidationSupport.ts:83-93 | After soft invalidation no layer serves the key as fresh |
| Json.ReadPrinted | src/internal/CacheKeySerialization.ts:95-95 | JSON text is self-delimiting: reading a printed value followed by anything gives back the value and exactly what followed (RFC 8259, sections 2 to 7) |
| Json.StringifyInjective | src/internal/CacheKeySerialization.ts:95-95 | Equal JSON texts come from equal values |
| Normalization.NormalIsProper | src/internal/CacheKeySerialization.ts:10-66 | Whatever normalization accepts becomes a well-formed JSON value |
| Normalization.PlainIsUntagged | src/internal/CacheKeySerialization.ts:43-48 | The normal form of an accepted plain object never carries a reserved `$type` |
| Normalization.ThrowsIff | src/internal/CacheKeySerialization.ts:10-66 | Normalization refuses a value if and only if somewhere in it, but not under a dangerous name, there is an unsupported value or a plain object with a reserved `$type` |
| Normalization.ObjectFields | src/internal/CacheKeySerialization.ts:50-58 | The fields of an accepted object are exactly its members with present values, without `__proto__`, `prototype` and `constructor` |
| Normalization.NamesAreOrdered | src/internal/CacheKeySerialization.ts:50-58 | The order of an object's keys, array indices first, is a strict total order |
| Normalization.ObjectIgnoresOrder | src/internal/CacheKeySerialization.ts:50-58 | The normal form of an object does not depend on insertion order |
| Normalization.SetIgnoresOrderIff | src/internal/CacheKeySerialization.ts:30-35 | For any consistent comparison: the normal form of a set ignores insertion order if and only if the comparison ranks no two different elements as equal |
| Normalization.SetIgnoresOrder | src/internal/CacheKeySerialization.ts:30-35 | So it always does if the comparison ranks no two different texts as equal |
| Normalization.SetOrderCanMatter | src/internal/CacheKeySerialization.ts:30-35 | Two strings ranked as equal make a set whose key depends on insertion order |
| Normalization.MapIgnoresOrderIff | src/internal/CacheKeySerialization.ts:22-29 | For any consistent comparison: the normal form of a map ignores insertion order if and only if entries whose keys it ranks as equal have keys and values that normalize alike |
| Normalization.ConsistentWhenTotal | src/internal/CacheKeySerialization.ts:22-29 | If the comparison ranks no two different texts as equal, that is: entries whose keys normalize alike have values that normalize alike |
| Normalization.MapOrderCanMatter | src/internal/CacheKeySerialization.ts:22-29 | A concrete map whose key depends on insertion order |
| Meaning.SlotMeans | src/internal/CacheKeySerialization.ts:10-66 | A normal form reads back as exactly what its value means: ordered lists, unordered records, maps and sets, tagged natives |
| Meaning.SameFormSameMeaning | src/internal/CacheKeySerialization.ts:10-66 | Values with one normal form mean the same; no plain object shares one with a date, URL, regular expression, map or set |
| Meaning.SameMeaningSameForm | src/internal/CacheKeySerialization.ts:10-66 | Regular values that mean the same have one normal form, however nested their changes of insertion order, if in one of them the comparison ranks only elements and keys as equal that mean the same |
| Meaning.TotalSeparates | src/internal/CacheKeySerialization.ts:10-66 | A comparison that ranks no two different texts as equal meets that condition on every accepted value |
| Meaning.SameFormIffSameMeaning | src/internal/CacheKeySerialization.ts:10-66 | The two together: one normal form if and only if one meaning |
| Circularity.RefusedIffCircular | src/internal/CacheKeySerialization.ts:68-76 | The walk refuses a value if and only if some path from it meets an object twice; shared objects are accepted |
| Circularity.Walk.Visit | src/internal/CacheKeySerialization.ts:68-76 | The walk gives the ancestor set back unchanged however it ends, and answers as specified |
| KeyEncoding.UnescapeEscaped | src/internal/CacheKeySerialization.ts:83-85 | The two replacement passes leave no colon and can be undone |
| KeyEncoding.RefusedIff | src/CacheStack.ts:798-803 | A call is refused a key if and only if one of its arguments is refused |
| KeyEncoding.KeyDecodes | src/CacheStack.ts:798-803 | For a fixed prefix every generated key parses back to exactly the normalized argument list |
| KeyEncoding.SameKeyIff | src/CacheStack.ts:798-803 | Two accepted argument lists share a key if and only if they normalize alike, argument by argument |
| KeyEncoding.SameKeySameArguments | src/CacheStack.ts:798-803 | Calls with one key have the same number of arguments, and each means the same in both |
| KeyEncoding.SameArgumentsSameKey | src/CacheStack.ts:798-803 | Calls with regular arguments that mean the same share a key, whatever the insertion orders inside them, under the same condition on the comparison |
| StableSort.SortIgnoresOrderIff | src/internal/CacheKeySerialization.ts:78-80 | For any consistent comparison: what a stable sort shows does not depend on the order of the entries if and only if entries ranked as equal show the same |
| StableSort.SortIgnoresOrder | src/internal/CacheKeySerialization.ts:50-51 | Under a total order, entries that their keys determine sort alike in whatever order they come |
| StableSort.SortIsStable | src/internal/CacheKeySerialization.ts:27-27 | Sorting keeps entries ranked as equal in their order |

## Left out

- Redis, disk, Memcached, compression, encryption and snapshot code: calls into code outside the repository. A layer is a finite map whose calls are atomic steps, a Redis script is one step.
- Layers that reject and degraded layers in the fence proofs: a slot whose layer write rejects ends without its cleanup, so the guarantee is not the code's claim there.
- The write-behind queue inside `FencedWrites`: there a deferred write may be admitted at any later time or never, which covers every run of `WriteBehind`.
- Batch sizes and queue limits of zero in `WriteBehind`: the first never ends a flush, the second refuses everything.
- Two entries for one key inside a single bulk write: `FencedWrites` has one capture per key of a batch.
- The sliding-TTL rewrite and soft expiry as steps of `FencedWrites`: they set layers without a fence, so the protocol's guarantees are not theirs; `UnfencedRewrites` says what one of them does to a reachable state.
- The import of a snapshot: it sets layers without a fence, from outside data.
- Times in `Coherence`: an operation reads the clock once.
- Layer size limits in `Coherence`: evictions are steps of their own, at any time.
- Tasks that call back into the rate limiter synchronously while it drains, and bypassing tasks, which the counters do not count.
- Bucket objects of the rate limiter and promises of the write scheduler: entries of a list named by their index, so that identity is kept and a stale reference is a stale index.
- The order in which one drain visits its buckets, and bucket key resolution: any order is allowed, and a bucket is used with one options value.
- `MAX_BUCKETS * 0.9`: exact, so 9,000.
- `Math.ceil(size * 0.1)` and `Math.ceil(maxKnownKeys * 0.1)`: the exact ceiling of a tenth. On doubles it can be one more; for 70 known keys the source removes 8 and the model 7.
- The visit order of trie children: `collectFromNode` may return keys in any order.
- Circular arguments outside `Circularity`: in `Normalization` an argument is the finite tree that an accepted object graph unfolds to.
- A `Map` argument with an undefined key beside other entries: in the source the comparison may throw, depending on the sort's order of comparisons; in the model it sorts under the text `undefined`.
- Numbers in keys are their literal texts, so the two zeros are one; characters are Unicode scalars.
- `localeCompare`: an arbitrary strict weak order, which may rank different texts as equal; its own collation rules are not modelled.
- `MemoryLayer` eviction callbacks and `importState`; FIFO and LFU in `LruInclusion`.
- SingleFlight.WaitForFreshValue: jitter may be any delay of at least a millisecond, and failures of the coordinator are not modelled.
- Generation prefixing, tag intersection, circuit breaking, metrics, option validation, adaptive TTLs and framework integrations: no invariant here depends on them.
