# Sparse-attention KV cache: verified models

The repository keeps the hot tokens of a long context in a small pool of HBM slots. This project
models the state machines that decide which token lives in which slot, and the wire and address
formats around them, and proves what they promise. All sizes are symbolic: pool, queries per batch,
tokens, free-list length, threads, tile length and block count are parameters constrained only by the
inequalities the code relies on.

- **SIMT lookup kernel and its oracle** (`SimtMachine` .. `SimtWinners`, `LookupSpec`,
  `LookupReference`, `LruRuns`, `LruTight`, `Compaction`). The kernel is a step system: every load,
  compare-and-swap and store that other threads can observe is one step, any interleaving is allowed
  inside a phase, and a barrier releases all threads together. Every schedule is proved to compute one
  sequential batch. The oracle is parametrised by which occurrence represents a repeated missing token:
  the reference picks the first, the kernel whichever wins the compare-and-swap; which choices are possible
  is proved exactly.
- **Lookup and maintain** (`HbmIndex`, `HbmMaintain`, `HbmKernels`, `HbmLookupKernel`, `HbmRuns`,
  `SlotBitmap`, `VectorUnit`). Tiled vector lookup, greedy allocation, bitmap of protected slots and
  cyclic eviction, against the two Python references, and the protocol they form.
- **Step-boundary LRU simulator** (`Recency`, `EvictionSpec`, `EvictionRecency`, `EvictionSim`,
  `EvictionSlots`, `ManagedCache`).
- **ASU resolver and manager** (`KvResolver`, `KvManager`, `KvLayers`, `KvFailures`, `KvSlots`,
  `KvContext`, `KvKernel`).
- **Random-update and table-lookup kernels** (`NumberTheory`, `RandomUpdate`, `LookupVec`,
  `HbmLookupUpdate`, `GridStride`, `FlatRows`, `Uint32`).
- **MicroKV** (`Bytes`, `KvProtocol`, `KvSession`, `KvServer`, `KvClient`, `KvClientSession`).

Operations that the source performs in place are methods on arrays or on classes with the source's
fields, proved against specification functions; the properties are proved about those functions.

Modelling conventions:

- `Get` and `Put` are total array accesses. In the SIMT kernel an access outside an array has no effect;
  `SimtRefinement.NeverOutOfBounds` proves that it never happens.
- The value of `Hash32` is an arbitrary parameter; only its value modulo the row or query length matters.
- Integer widths are written out where a value can reach them: `queryLen * updatePercent`, every product
  and stride of the two `hbm_lookup_update` kernels, little-endian fields and response lengths. In the
  SIMT and lookup kernels all values stay below the table sizes, which are far below 2^31, and the int16
  order entries hold slot numbers below 32768.
- A byte stream arrives in arbitrary chunks: each receive returns any non-empty prefix of what is left,
  at most as much as asked for. What is left is what will be delivered before the peer closes or
  receiving fails. A send takes any non-empty part of its data, or fails for good. Both can be
  interrupted, finitely often.
- Exceptions are result values. Where an exception leaves a partially updated state, so does the model.

Where code and documentation differ, the code is followed:

- The oracle's text says that only the first occurrence of a repeated missing token has `miss_mask` set;
  the kernel sets it for the occurrence that wins the compare-and-swap.
  `SimtSchedules.ScheduleIndependence` gives the exact condition under which the two agree.
- The smoke call in docs/v0.1/kv-cache-offload-v0.1-custom-op-usage.md starts from tables in which most
  slots are neither mapped nor free. `HbmRuns.SmokeCallNeverEnds` shows that its maintain call does not
  end; `HbmMaintain.FinishesExactly` says exactly when the loop does.
- The random update promises a percentage of the queries. `RandomUpdate.UpdateNumExact` says exactly
  when the 32-bit product delivers it, and `RandomUpdate.UpdateNumWraps` gives sizes for which it
  updates nothing.

Where the code does not meet what its callers are promised, the exact condition is proved and an input is
given:

- The client sends batches and asks for answers that the server refuses or cannot encode.
  `KvClientSession.EndToEnd` says exactly when a sequence of calls returns what the store holds;
  `KvClientSession.LargeAnswerFails` and `KvClientSession.LargeBatchFails` are calls for which it does not.
- A manager reset that fails at the block-table check has already stored the request id and length.
  `KvFailures.HalfDoneExactly` says exactly when that happens, `KvFailures.RetryExactly` that these are the
  failures a later attempt does not make up for, `KvFailures.HalfResetSticks` how long the request then goes
  without its tokens, and `KvFailures.HalfResetInput` is an input.
- A request that goes on with another block table is not reset. `KvFailures.StepGathersExactly` says exactly
  when a step gathers the original pairs, and `KvFailures.StaleInput` is an input for which it does not.
- The resolver kernel checks nothing. `KvKernel.KernelAgrees` says exactly which of the reference's checks
  make a difference, `KvKernel.UncheckedInput` is an input for which they do, and `KvKernel.KernelGathers`
  shows that its answers are right in any case.
- A token whose copy fails has already popped its slot. `KvSlots.StepConserves` says exactly when a step
  loses a slot this way, and `KvSlots.LeakInput` is an input after which the token cannot be resolved even
  with the right block table.

## Model

| member | source | states |
|---|---|---|
| `SimtRefinement.KernelRefinesBatch` | pta-ops/asu_hbm_index_lookup_simt/src/asu_hbm_index_lookup_simt_kernel.cpp:49-218 | every finished schedule of any number of threads leaves exactly the tables, answers and mask of one sequential batch whose winners are the positions the compare-and-swap picked, one per distinct missing token |
| `SimtSchedules.ScheduleIndependence` | pta-ops/asu_hbm_index_lookup_simt/src/asu_hbm_index_lookup_simt_kernel.cpp:60-85 | the result equals the reference (first occurrence wins) under every schedule if and only if all occurrences of each missing token belong to one thread |
| `SimtSchedules.NoRepeatsExact` | pta-ops/asu_hbm_index_lookup_simt/src/asu_hbm_index_lookup_simt_kernel.cpp:49-218 | when no missing token repeats, every finished schedule gives the reference result exactly |
| `SimtSchedules.AnotherThreadWins` | pta-ops/asu_hbm_index_lookup_simt/src/asu_hbm_index_lookup_simt_kernel.cpp:73-83 | if a missing token is queried from two threads, some schedule lets the other one win it, so the mask really depends on the schedule |
| `SimtWinners.WinnersExactly` | pta-ops/asu_hbm_index_lookup_simt/src/asu_hbm_index_lookup_simt_kernel.cpp:60-85 | some schedule ends with a given set of winners if and only if they are one position of every distinct missing token and do not wait for each other in a circle, where a winner waits for the winners of the missing tokens its thread queries before it |
| `SimtWinners.ResultsExactly` | pta-ops/asu_hbm_index_lookup_simt/src/asu_hbm_index_lookup_simt_kernel.cpp:49-218 | so the results a launch can have, over all schedules, are exactly the sequential batches for such winners |
| `SimtWinners.CrossedWinsImpossible` | pta-ops/asu_hbm_index_lookup_simt/src/asu_hbm_index_lookup_simt_kernel.cpp:60-85 | under no schedule do two threads each win the token that the other one queries first |
| `SimtSchedules.AlwaysFinishable` | pta-ops/asu_hbm_index_lookup_simt/src/asu_hbm_index_lookup_simt_kernel.cpp:49-219 | from every reachable point of every schedule the kernel can still be run to its end: no deadlock at a barrier |
| `SimtSchedules.StepDecreases` | pta-ops/asu_hbm_index_lookup_simt/src/asu_hbm_index_lookup_simt_kernel.cpp:49-218 | each step of a thread that is not at the barrier lowers a bound on its remaining work, so no phase loops for ever |
| `SimtRefinement.NeverOutOfBounds` | pta-ops/asu_hbm_index_lookup_simt/src/asu_hbm_index_lookup_simt_kernel.cpp:49-218 | no step of any schedule reads or writes outside an array, takes the `old >= 0` branch, or lets `evictable_count - miss_count` underflow |
| `SimtRefinement.RunKeeps` | pta-ops/asu_hbm_index_lookup_simt/src/asu_hbm_index_lookup_simt_kernel.cpp:49-218 | the phase invariant holds at every point of every schedule |
| `SimtRounds.FinishedKernelIsRound` | pta-ops/asu_hbm_index_lookup_simt/src/asu_hbm_index_lookup_simt_kernel.cpp:49-218 | after every finished launch the maps are mutually inverse, the order is a permutation and no CLAIMING mark survives; the launch is one round of the run model |
| `SimtRounds.KernelAnswersMapBack` | pta-ops/asu_hbm_index_lookup_simt/src/asu_hbm_index_lookup_simt_kernel.cpp:208-218 | every valid query of a finished launch is answered by a slot that holds its token, every other by NOT_FOUND |
| `SimtRounds.TablesDependOnSchedule` | pta-ops/asu_hbm_index_lookup_simt/src/asu_hbm_index_lookup_simt_kernel.cpp:60-85 | two threads, four free slots and two missing tokens queried by both: one schedule ends with the first token in slot 0 and the second in slot 1, another the other way round |
| `SimtClaim.ClaimKeeps` | pta-ops/asu_hbm_index_lookup_simt/src/asu_hbm_index_lookup_simt_kernel.cpp:60-85 | each read, compare-and-swap or write of the claim phase keeps: one winner per claimed token, hits recorded, nothing else touched |
| `SimtClaim.ClaimDone` | pta-ops/asu_hbm_index_lookup_simt/src/asu_hbm_index_lookup_simt_kernel.cpp:60-87 | at the barrier each distinct missing token has exactly one winning position, hits have none, and exactly the queried missing tokens are marked CLAIMING |
| `SimtPartition.CountKeeps` | pta-ops/asu_hbm_index_lookup_simt/src/asu_hbm_index_lookup_simt_kernel.cpp:91-112 | the per-thread counts are the flag counts of the chunks, chunks that overshoot the end included |
| `SimtPartition.ScatterKeeps` | pta-ops/asu_hbm_index_lookup_simt/src/asu_hbm_index_lookup_simt_kernel.cpp:114-135 | each scattered entry lands at its rank and never on another entry |
| `SimtPartition.ScatterDone` | pta-ops/asu_hbm_index_lookup_simt/src/asu_hbm_index_lookup_simt_kernel.cpp:114-135 | for any thread count the chunked prefix sums and scatter build the sequential stable filters of the order into hit and evictable slots |
| `SimtPartition.OwnerOf` | pta-ops/asu_hbm_index_lookup_simt/src/asu_hbm_index_lookup_simt_kernel.cpp:91-97 | the chunks cover every position, also when the last ones are cut off or empty |
| `SimtReplace.MissKeeps` | pta-ops/asu_hbm_index_lookup_simt/src/asu_hbm_index_lookup_simt_kernel.cpp:139-155 | the per-thread miss counts are the counts of winners in the chunks |
| `SimtReplace.Plan.Separate` | pta-ops/asu_hbm_index_lookup_simt/src/asu_hbm_index_lookup_simt_kernel.cpp:157-182 | different winners have different victims, tokens and evicted tokens, and no evicted token is a queried missing token: their writes commute |
| `SimtReplace.ReplaceKeeps` | pta-ops/asu_hbm_index_lookup_simt/src/asu_hbm_index_lookup_simt_kernel.cpp:157-185 | every single write of every interleaving advances its own winner and leaves every other winner's cells as they were |
| `SimtReplace.ReplaceDone` | pta-ops/asu_hbm_index_lookup_simt/src/asu_hbm_index_lookup_simt_kernel.cpp:157-187 | at the barrier the maps are those of installing the nth winner in the nth evictable slot one after the other |
| `SimtFinish.FinishDone` | pta-ops/asu_hbm_index_lookup_simt/src/asu_hbm_index_lookup_simt_kernel.cpp:189-218 | the rewritten order and resolved answers are those of the sequential batch |
| `LookupReference.LookupState.LookupAllocateEvict` | pta-ops/asu_hbm_index_lookup_simt/python/lookup_lru_reference.py:21-89 | the imperative reference succeeds exactly on the accepted inputs and then performs the batch for first occurrences; each ValueError has its exact condition, an invalid mapping gives the error of the first offending query, and only the error raised in mid-update changes the state: it leaves the installations made before the first victim whose old token is out of range |
| `LookupReference.LookupState.Classify` | pta-ops/asu_hbm_index_lookup_simt/python/lookup_lru_reference.py:38-58 | the first pass marks the first occurrence of each missing token and collects hit slots; it fails exactly when some mapping is invalid, with the error of the first one |
| `LookupReference.LookupState.PartitionOrder` | pta-ops/asu_hbm_index_lookup_simt/python/lookup_lru_reference.py:60-63 | the two comprehensions are the stable filters of the order |
| `LookupReference.LookupState.Install` | pta-ops/asu_hbm_index_lookup_simt/python/lookup_lru_reference.py:67-77 | the nth miss takes the nth evictable slot, clearing the token that slot held; it stops at the first victim whose old token is out of range, the installations before it done |
| `LookupReference.LookupState.Answers` | pta-ops/asu_hbm_index_lookup_simt/python/lookup_lru_reference.py:79-81 | every valid query is answered from the table after installation |
| `LookupReference.ConsistentAccepted` | pta-ops/asu_hbm_index_lookup_simt/python/lookup_lru_reference.py:44-74 | from a consistent state with no more queries than slots no error branch is reachable |
| `LookupSpec.EnoughVictims` | pta-ops/asu_hbm_index_lookup_simt/python/lookup_lru_reference.py:64-65 | misses and hits together never exceed the queries, so the evictable slots suffice whenever the queries fit the pool |
| `LookupReference.BatchKeepsConsistent` | pta-ops/asu_hbm_index_lookup_simt/python/lookup_lru_reference.py:67-88 | a batch keeps the order a permutation and the two maps mutually inverse, whichever occurrences represent the misses |
| `LookupReference.AnswersMapBack` | pta-ops/asu_hbm_index_lookup_simt/python/lookup_lru_reference.py:79-81 | after a batch the slot reported for a valid query holds its token |
| `LookupReference.TokenAfter` | pta-ops/asu_hbm_index_lookup_simt/python/lookup_lru_reference.py:67-81 | each queried token is resident afterwards, where it was if it was resident; any other token keeps its slot or loses it to a victim |
| `LookupSpec.InstallToInstalled` | pta-ops/asu_hbm_index_lookup_simt/python/lookup_lru_reference.py:67-77 | the installation loop in closed form: which entries of both maps change, and to what |
| `LruRuns.RunKeepsConsistent` | pta-ops/asu_hbm_index_lookup_simt/python/lookup_lru_reference.py:32-88 | consistency holds after every batch of every run |
| `LruRuns.Retention` | pta-ops/asu_hbm_index_lookup_simt/python/lookup_lru_reference.py:60-88 | a token queried in batch i keeps its slot through every batch j with (j - i + 1) * Q <= S |
| `LruTight.RetentionTight` | pta-ops/asu_hbm_index_lookup_simt/python/lookup_lru_reference.py:60-88 | the bound is tight: for every pool size, every batch size within it and the first batch past the bound there is a run after which a token of the first batch is gone |
| `LruRuns.FourMoreBatches` | pta-ops/asu_hbm_index_lookup_simt/python/lookup_lru_reference.py:60-88 | with 10240 slots and 2048 queries a token survives at least four further batches |
| `LruRuns.OrderIsRecency` | pta-ops/asu_hbm_index_lookup_simt/python/lookup_lru_reference.py:83-88 | over every run the order stays sorted by the last batch that hit or allocated each slot |
| `LruRuns.VictimsAreLeastRecent` | pta-ops/asu_hbm_index_lookup_simt/python/lookup_lru_reference.py:60-77 | no evicted slot was used more recently than a surviving slot that the batch did not hit |
| `Compaction.ScatterIsCompact` | pta-ops/asu_hbm_index_lookup_simt/src/asu_hbm_index_lookup_simt_kernel.cpp:114-133 | writing each flagged element at its exclusive prefix count builds the stable filter |
| `HbmKernels.ExpectedLookup` | ops/scripts/asu_hbm_index_common.py:119-139 | the reference loop computes the one-id-at-a-time allocation and its reported slots, or fails exactly when at some position a missing id finds no entry left in the free list |
| `HbmLookupKernel.OffsetPasses` | ops/asu_hbm_index_lookup_aiv.cpp:94-104 | the relu/clamp/compare passes give each query its byte offset in the tile and a mask that is set exactly for queries inside the tile |
| `HbmLookupKernel.SelectTile` | ops/asu_hbm_index_lookup_aiv.cpp:106-108 | gather and select change exactly the queries that fall in the tile |
| `HbmLookupKernel.TilePasses` | ops/asu_hbm_index_lookup_aiv.cpp:87-110 | after all tiles each query holds its snapshot entry: it was selected by exactly one tile |
| `HbmLookupKernel.AllocateMisses` | ops/asu_hbm_index_lookup_aiv.cpp:112-125 | the scalar re-check loop turns the snapshot into the sequential allocation, duplicates included |
| `HbmLookupKernel.LookupKernel` | ops/asu_hbm_index_lookup_aiv.cpp:86-129 | tiles plus scalar loop equal the one-query-at-a-time reference on index, slot_to_index, head and reported slots |
| `HbmIndex.LookupKeeps` | ops/scripts/asu_hbm_index_common.py:126-137 | a lookup keeps the partition, advances head by exactly the number of distinct missing ids and moves no mapped id |
| `HbmIndex.MappedStays` | ops/asu_hbm_index_lookup_aiv.cpp:112-125 | an entry that is mapped stays mapped to the same slot while later misses are allocated |
| `HbmIndex.SlotOutFinal` | ops/scripts/asu_hbm_index_common.py:128-136 | the slot reported for a query is where its id is found when the call returns |
| `HbmIndex.FreeListSuffices` | ops/scripts/asu_hbm_index_common.py:131-133 | the free list is not overrun exactly when the distinct missing ids fit it |
| `HbmIndex.NoOverrunExactly` | ops/scripts/asu_hbm_index_common.py:131-133 | on partitioned rows a call stays inside the free list if and only if head plus the number of its distinct missing ids is at most the length of the list |
| `HbmIndex.NoOverrunMeans` | ops/scripts/asu_hbm_index_common.py:128-136 | on any row a call stays inside the free list if and only if no position finds a missing id with the list used up |
| `SlotBitmap.MarkProtectedSlot` | ops/asu_hbm_index_maintain_aicpu_kernel.aicpu:42-46 | setting a bit adds that slot to the represented set and no other |
| `SlotBitmap.IsProtectedSlot` | ops/asu_hbm_index_maintain_aicpu_kernel.aicpu:48-51 | the bit test is set membership |
| `SlotBitmap.ClearProtectedSlots` | ops/asu_hbm_index_maintain_aicpu_kernel.aicpu:35-40 | a cleared bitmap represents the empty set |
| `HbmKernels.MarkAll` | ops/asu_hbm_index_maintain_aicpu_kernel.aicpu:74-77 | the bitmap represents exactly the slots of the last query |
| `HbmKernels.Request.Scan` | ascend-ops/asu_hbm_index_maintain/op_kernel/asu_hbm_index_maintain.cpp:82-95 | the eviction loop ends within one lap and computes the whole scan |
| `HbmKernels.Request.MaintainEviction` | ops/asu_hbm_index_maintain_aicpu_kernel.aicpu:63-93 | the bitmap kernel computes the set-based eviction of the reference, the head == 0 shortcut included |
| `HbmKernels.ExpectedMaintain` | ops/scripts/asu_hbm_index_common.py:198-212 | the reference loop with its modulus computes the same eviction as the kernel |
| `HbmMaintain.FinishesExactly` | ops/asu_hbm_index_maintain_aicpu_kernel.aicpu:79-91 | the loop ends if and only if at least head mapped slots are unprotected, and then within one lap |
| `HbmMaintain.MaintainExact` | ops/asu_hbm_index_maintain_aicpu_kernel.aicpu:79-93 | it empties exactly the first head evictable slots in cyclic order from the start and stacks them below the old head, head ending at 0 |
| `HbmMaintain.VictimsExactly` | ops/asu_hbm_index_maintain_aicpu_kernel.aicpu:79-93 | each emptied slot is an unprotected mapped one with fewer than head such slots before it on the way round from the start, and their order in the stack is that order |
| `HbmMaintain.MaintainForgets` | ops/asu_hbm_index_maintain_aicpu_kernel.aicpu:79-93 | on partitioned rows exactly the ids held by those slots become NOT_FOUND in index, every other id keeps its entry |
| `HbmMaintain.ScanSlots` | ops/asu_hbm_index_maintain_aicpu_kernel.aicpu:79-91 | after any n steps of the first lap: how far head has dropped and which slots are empty |
| `HbmMaintain.ScanKeepsPartition` | ops/asu_hbm_index_maintain_aicpu_kernel.aicpu:79-91 | each step keeps mapped and free slots a partition and the maps inverse |
| `HbmMaintain.EnoughEvictable` | ops/asu_hbm_index_maintain_aicpu_kernel.aicpu:79-91 | on a partitioned row with free_slots length plus protected slots within the pool there are always head slots to evict |
| `HbmMaintain.ProtectedStays` | ops/asu_hbm_index_maintain_aicpu_kernel.aicpu:81 | a protected mapped slot keeps its id |
| `HbmRuns.RunKeeps` | ops/scripts/asu_hbm_index_common.py:119-214 | over every alternating run of lookup and maintain: the partition holds, head returns to 0 after each round and within it is the number of distinct missing ids, never past the free list, and every queried id is still resident in the slot reported for it |
| `HbmRuns.MaintainFinishes` | ops/scripts/asu_hbm_index_common.py:203-211 | after every lookup of such a run the maintain loop ends |
| `HbmRuns.IndexCasePartition` | ops/scripts/asu_hbm_index_common.py:80-97 | make_index_case starts inside the partition |
| `HbmRuns.MaintainCasePartition` | ops/scripts/asu_hbm_index_common.py:148-176 | make_maintain_case starts inside the partition |
| `HbmRuns.MaintainCaseIsLookup` | ops/scripts/asu_hbm_index_common.py:148-176 | the generated maintain rows are the generated initial rows after a lookup of the ids to be evicted |
| `HbmRuns.SmokeCallNeverEnds` | docs/v0.1/kv-cache-offload-v0.1-custom-op-usage.md:229-254 | the documented smoke call starts outside the partition: its lookup stays inside the free list, and after it the maintain loop never evicts anything, for every start |
| `ManagedCache.LRUManagedCache.Create` | simu/kv_cache_eviction_sim.py:102-110 | negative sizes are rejected in order; otherwise the cache starts empty with all slots free |
| `ManagedCache.LRUManagedCache.PrepareFreeSlots` | simu/kv_cache_eviction_sim.py:124-131 | evicts oldest residents until the target is met or none is left |
| `ManagedCache.LRUManagedCache.ResolveQuery` | simu/kv_cache_eviction_sim.py:133-150 | hits move to the end, misses take the top free slot, shortages change nothing; the counters say how many of each |
| `ManagedCache.RunSimulation` | simu/kv_cache_eviction_sim.py:250-278 | the cache, the totals and every step record are those of the event run of the workload; and as long as no query has run short, the residents right after the prepare of every step are exactly the most recently used distinct tokens, as many as the configured slots less the configured free target leave room for |
| `EvictionSpec.RunKeeps` | simu/kv_cache_eviction_sim.py:99-150 | over every run the pool is conserved: installs are evictions plus residents, misses are installs plus shortages, hits plus misses are the queries |
| `EvictionSpec.SlotsCovered` | simu/kv_cache_eviction_sim.py:108-150 | every slot is free or held by a resident |
| `EvictionRecency.ResidentsAreMostRecent` | simu/kv_cache_eviction_sim.py:124-150 | without shortages the residents are always a suffix of the whole history's distinct tokens by last use, and right after a prepare exactly the min(total - target, distinct) most recent ones |
| `EvictionRecency.ShortageBreaksSuffix` | simu/kv_cache_eviction_sim.py:143-148 | a query keeps that property if and only if it is a hit, finds a free slot, or there is no pool |
| `EvictionRecency.Inclusion` | simu/kv_cache_eviction_sim.py:124-150 | stack property: of two no-shortage runs on the same events the one with less capacity holds a subset and never has more hits |
| `EvictionSim.NoShortages` | simu/kv_cache_eviction_sim.py:43-53 | with at least 2048 slots and a target of at least 2048 per request no workload of lists with at most 2048 distinct tokens ever runs short |
| `EvictionSim.PreparedResidents` | simu/kv_cache_eviction_sim.py:47-53 | until a query runs short, what a step keeps is exactly the min(requests * (slots - per request target), distinct) most recent tokens of the workload, the target being 2048 if unset and at most everything |
| `EvictionSlots.NewSlots` | simu/kv_cache_eviction_sim.py:109-146 | new tokens take the slots of a new pool from 0 up |
| `EvictionSlots.EvictedSlotReused` | simu/kv_cache_eviction_sim.py:126-146 | the slot of the token evicted last is the first to be given away again |
| `Recency.ByLastUseSorted` | simu/kv_cache_eviction_sim.py:133-146 | the reference order is sorted by last use |
| `Recency.ByLastUseMembers` | simu/kv_cache_eviction_sim.py:133-146 | and lists exactly the tokens used |
| `KvContext.LayerContext.constructor` | patch/0003-9321d234-feat-wire-asu-kv-manager-into-decode-sfa.patch:360-401 | a new layer context knows no token and has every slot free |
| `KvContext.LayerContext.ResetState` | patch/0003-9321d234-feat-wire-asu-kv-manager-into-decode-sfa.patch:234-292 | rejections, the partial reset when the block table is too short, and the loaded state, which `KvSlots.ResetFreesAll` and `KvSlots.PreparedTokens` say slot by slot and token by token |
| `KvContext.LayerContext.MarkDecodeToken` | patch/0003-9321d234-feat-wire-asu-kv-manager-into-decode-sfa.patch:294-298 | growth by one token, or rejection |
| `KvContext.LayerContext.PopFreeSlot` | patch/0001-5a5da8d7-feat-add-asu-kv-resolver-custom-op.patch:879-888 | the top of the stack, or an error and no change |
| `KvContext.LayerContext.CopyFullKvPair` | patch/0001-5a5da8d7-feat-add-asu-kv-resolver-custom-op.patch:905-923 | copies both planes of one slot, or nothing when any index is out of range |
| `KvContext.LayerContext.InstallToken` | patch/0001-5a5da8d7-feat-add-asu-kv-resolver-custom-op.patch:926-951 | the popped slot is gone even when the copy fails |
| `KvContext.LayerContext.ResolveSlots` | patch/0001-5a5da8d7-feat-add-asu-kv-resolver-custom-op.patch:954-1039 | the resolver computes the specified context and slots, or the first error with the state reached so far |
| `KvKernel.AsuKvResolverKernel.Process` | patch/0001-5a5da8d7-feat-add-asu-kv-resolver-custom-op.patch:394-414 | on every call that stays inside its tensors, the unchecked kernel on flat planes does the specified unchecked operation, one token after the other |
| `KvKernel.KernelAgrees` | patch/0001-5a5da8d7-feat-add-asu-kv-resolver-custom-op.patch:394-423 | the reference accepts a call if and only if the kernel stays inside its tensors and every token is in range and in a known state; then both leave the same context and slots |
| `KvKernel.UncheckedInput` | patch/0001-5a5da8d7-feat-add-asu-kv-resolver-custom-op.patch:394-423 | the checks make a difference: for one INVALID token with a free slot and a block the reference raises an error and the kernel resolves it |
| `KvKernel.KernelGathers` | patch/0001-5a5da8d7-feat-add-asu-kv-resolver-custom-op.patch:394-423 | whatever tokens it is given, out-of-sequence and INVALID ones included, a kernel call that stays inside its tensors keeps the invariant and gathers the original pairs |
| `KvKernel.CopySlot` | patch/0001-5a5da8d7-feat-add-asu-kv-resolver-custom-op.patch:441-452 | the element loop copies exactly one slot |
| `KvKernel.AsuKvResolverKernel.ResolveTailSourceSlot` | patch/0001-5a5da8d7-feat-add-asu-kv-resolver-custom-op.patch:417-423 | the block-table address of a tail token |
| `KvResolver.GatherPreserved` | patch/0001-5a5da8d7-feat-add-asu-kv-resolver-custom-op.patch:954-1039 | both managed planes at the resolved slots equal the original planes at the block-table addresses; the invariant survives failed calls too |
| `KvResolver.ResolveSucceedsExactly` | patch/0001-5a5da8d7-feat-add-asu-kv-resolver-custom-op.patch:991-1035 | a resolve succeeds if and only if every token is in range, known and stored and the free slots cover the distinct tokens that are not resident; it then takes exactly that many |
| `KvResolver.ResolveOutcome` | patch/0001-5a5da8d7-feat-add-asu-kv-resolver-custom-op.patch:972-1037 | a negative length or an empty block is rejected first; otherwise the call succeeds, or fails with the error of the first position that does not resolve, which is told from the context before the call |
| `KvManager.ResetKeeps` | patch/0003-9321d234-feat-wire-asu-kv-manager-into-decode-sfa.patch:234-292 | a reset leaves every token of the sequence known and nothing recorded beyond it |
| `KvManager.MarkKeeps` | patch/0003-9321d234-feat-wire-asu-kv-manager-into-decode-sfa.patch:294-298 | growth keeps every token known exactly when it skips no position |
| `KvManager.RunGathersOriginals` | patch/0003-9321d234-feat-wire-asu-kv-manager-into-decode-sfa.patch:480-499 | over every run of decode steps of a new layer, rejected and half-done resets, rejected growth and failed resolves included, each successful resolve gathers the original pairs; the only condition is that a step that goes on with a sequence finds the paged cache extended |
| `KvManager.RunNeverUnsupported` | patch/0003-9321d234-feat-wire-asu-kv-manager-into-decode-sfa.patch:480-499 | while every step is prepared and grows the sequence by at most one token, no resolve of the run meets a token in an unsupported state |
| `KvManager.SkippedFails` | patch/0003-9321d234-feat-wire-asu-kv-manager-into-decode-sfa.patch:480-499 | a step that grows the sequence by more leaves the skipped position in an unsupported state: resolving it fails |
| `KvSlots.BlockAddress` | patch/0003-9321d234-feat-wire-asu-kv-manager-into-decode-sfa.patch:268-285 | the j-th block of the block table holds the tokens from j * block_size on, in order |
| `KvSlots.PreparedExactly` | patch/0003-9321d234-feat-wire-asu-kv-manager-into-decode-sfa.patch:480-499 | a preparation succeeds if and only if its lengths are legal and fit and, when the sequence starts anew, the block table reaches the last token that is not new |
| `KvSlots.PreparedTokens` | patch/0003-9321d234-feat-wire-asu-kv-manager-into-decode-sfa.patch:267-298 | what a successful preparation makes of every token: recorded by its address, in the tail, unknown, or as it was |
| `KvSlots.ResetFreesAll` | patch/0003-9321d234-feat-wire-asu-kv-manager-into-decode-sfa.patch:254-265 | a new layer, and every reset past its argument checks, successful or not, has all slots free and no token resident |
| `KvSlots.FirstListExactly` | patch/0003-9321d234-feat-wire-asu-kv-manager-into-decode-sfa.patch:480-499 | the first list of a sequence resolves if and only if its tokens are in range and stored and its distinct tokens are no more than the slots |
| `KvSlots.FirstSlots` | patch/0003-9321d234-feat-wire-asu-kv-manager-into-decode-sfa.patch:258-265 | and distinct tokens are then given the slots from the last one down |
| `KvSlots.StepConserves` | patch/0001-5a5da8d7-feat-add-asu-kv-resolver-custom-op.patch:926-951 | a decode step of a layer whose free slots and resident tokens make up the pool keeps it so if and only if no token has its slot popped and then fails to be copied |
| `KvSlots.RunConserves` | patch/0001-5a5da8d7-feat-add-asu-kv-resolver-custom-op.patch:954-1039 | over every run of a new layer without such a token, free slots and resident tokens are always all slots, growth and resets included |
| `KvSlots.LeakInput` | patch/0001-5a5da8d7-feat-add-asu-kv-resolver-custom-op.patch:926-951 | that can fail: a block table that sends a token past the planes costs its slot, and with the table put right the token still does not resolve |
| `KvFailures.HalfDoneExactly` | patch/0003-9321d234-feat-wire-asu-kv-manager-into-decode-sfa.patch:234-281 | a failed preparation changes the layer if and only if the step resets with accepted arguments, has a prefix, and the block table does not reach its last position |
| `KvFailures.RetryExactly` | patch/0003-9321d234-feat-wire-asu-kv-manager-into-decode-sfa.patch:480-499 | a failed preparation tried again with a sufficient block table has the effect it would have had at first if and only if the failure was another one |
| `KvFailures.StuckKeeps` | patch/0003-9321d234-feat-wire-asu-kv-manager-into-decode-sfa.patch:480-499 | a layer left by such a failure resets only for another request or a shorter sequence; every other step leaves its tokens unknown |
| `KvFailures.HalfResetSticks` | patch/0003-9321d234-feat-wire-asu-kv-manager-into-decode-sfa.patch:480-499 | so over any later steps of the same request at lengths that do not shrink, none resets and none resolves a list holding a token below the failed length, whatever the block tables |
| `KvFailures.HalfResetInput` | patch/0003-9321d234-feat-wire-asu-kv-manager-into-decode-sfa.patch:480-499 | an input: two tokens and an empty block table; tried again with a full one the step fails on token 0, which it could have resolved had it not been tried before |
| `KvFailures.StepGathersExactly` | patch/0003-9321d234-feat-wire-asu-kv-manager-into-decode-sfa.patch:480-499 | whatever has become of the paged cache, a successful resolve gathers the original pairs if and only if each listed token's slot, recorded address or tail address holds its pair beforehand |
| `KvFailures.StaleInput` | patch/0003-9321d234-feat-wire-asu-kv-manager-into-decode-sfa.patch:480-499 | that can fail: a request that goes on with its two blocks exchanged is not reset and gathers the other block's pair |
| `KvLayers.LayersPreparedTogether` | patch/0003-9321d234-feat-wire-asu-kv-manager-into-decode-sfa.patch:411-432 | whichever layer of layers in step asks first: each is prepared as it would prepare itself, all stay in step and the others find nothing left to do; when that fails, the call fails in the same way and no layer but the first can have changed |
| `KvLayers.LayersDecodeAlone` | patch/0003-9321d234-feat-wire-asu-kv-manager-into-decode-sfa.patch:411-499 | a decode step of all layers is one decode step of each layer on its own, up to the first layer that cannot resolve, although only the first layer prepares |
| `KvLayers.ColumnIsRun` | patch/0003-9321d234-feat-wire-asu-kv-manager-into-decode-sfa.patch:411-499 | over every run of prepared decode steps of all layers, the states of each layer are a run of that layer alone, which gathers nothing in a step where an earlier layer failed |
| `KvLayers.LayersRunGathers` | patch/0003-9321d234-feat-wire-asu-kv-manager-into-decode-sfa.patch:411-499 | over every run of prepared decode steps of all layers, each layer that starts faithful, has its turn and resolves gathers its own original pairs |
| `RandomUpdate.GcdU32` | simu/hbm_lookup_update/src/hbm_lookup_update_kernel.cpp:31-39 | the loop returns the value of Euclid's recursion |
| `NumberTheory.GcdIsCommonDivisor` | simu/hbm_lookup_update/src/hbm_lookup_update_kernel.cpp:31-39 | that value divides both numbers |
| `NumberTheory.GcdIsGreatest` | simu/hbm_lookup_update/src/hbm_lookup_update_kernel.cpp:31-39 | and every common divisor divides it |
| `RandomUpdate.PickCoprimeA` | simu/hbm_lookup_update/src/hbm_lookup_update_kernel.cpp:41-57 | the search ends for every hash and n and returns the first coprime number met, wrapping to 1 |
| `RandomUpdate.NextCoprimeIsFirst` | simu/hbm_lookup_update/src/hbm_lookup_update_kernel.cpp:50-55 | no coprime number is skipped |
| `RandomUpdate.MultiplierIsLeast` | simu/hbm_lookup_update/src/hbm_lookup_update_kernel.cpp:43-56 | the multiplier is the least number from the hash modulo n on, and from 1 on if that is 0, that is coprime to n; the search never wraps |
| `NumberTheory.AffinePermutes` | simu/hbm_lookup_update/src/hbm_lookup_update_kernel.cpp:201-203 | with a coprime multiplier the visited positions are pairwise distinct, and all of them when every position is visited |
| `NumberTheory.NotCoprimeRepeats` | simu/hbm_lookup_update/src/hbm_lookup_update_kernel.cpp:202-203 | without coprimality some position repeats before the end |
| `RandomUpdate.UpdateNumExact` | simu/hbm_lookup_update/src/hbm_lookup_update_kernel.cpp:182-185 | the share of queries updated is the promised one if and only if queryLen * updatePercent fits 32 bits |
| `RandomUpdate.WantedExactly` | simu/hbm_lookup_update/src/hbm_lookup_update_kernel.cpp:182-207 | with distinct keys the row after the update holds the new state of exactly (queryLen * percent mod 2^32) / 100 pairwise distinct query positions, those that the drawn multiplier and offset visit, and is unchanged elsewhere |
| `RandomUpdate.UpdateNumWraps` | simu/hbm_lookup_update/src/hbm_lookup_update_kernel.cpp:182 | 2^26 queries at 64 percent pass the host checks, but the product wraps to 0 and nothing is updated |
| `RandomUpdate.ProductBound` | simu/hbm_lookup_update/src/hbm_lookup_update_kernel.cpp:203 | the position product fits 64 bits |
| `RandomUpdate.LastWriteWins` | simu/hbm_lookup_update/src/hbm_lookup_update_kernel.cpp:201-207 | each table entry holds the new state of the last visited position that queries it, or is unchanged |
| `RandomUpdate.RandomUpdateExact` | simu/hbm_lookup_update/src/hbm_lookup_update_kernel.cpp:197-207 | with distinct queried keys exactly updateNum different queries get their new state and every other entry is unchanged |
| `RandomUpdate.UpdateRequest` | simu/hbm_lookup_update/src/hbm_lookup_update_kernel.cpp:201-207 | the flat-buffer loop updates the row of its request and no other |
| `RandomUpdate.Process` | simu/hbm_lookup_update/src/hbm_lookup_update_kernel.cpp:176-209 | one core updates exactly its own requests, early returns included, each to the row that `RandomUpdate.WantedExactly` describes |
| `RandomUpdate.Launch` | simu/hbm_lookup_update/src/hbm_lookup_update_kernel.cpp:193-208 | all cores in any order update every request exactly once, from its row at launch: where queryLen * percent fits 32 bits, a row with distinct keys gets the new states of exactly queryLen * percent / 100 pairwise distinct positions, and every other entry keeps its value |
| `LookupVec.ClampBlockDim` | simu/hbm_lookup_update/pybind/pybind_hbm_lookup_update.cpp:49-57 | the block count is clamped to 1..64 and kept when already there |
| `LookupVec.AcceptsExactly` | simu/hbm_lookup_update/pybind/pybind_hbm_lookup_update.cpp:96-113 | the size checks accept exactly the shapes whose row, tile and element products fit 32 bits |
| `LookupVec.FitsExactly` | simu/hbm_lookup_update/pybind/pybind_hbm_lookup_update.cpp:96-113 | in numbers: requests times 131072, and requests times the query length rounded up to 64, are below 2^32 |
| `LookupVec.CheckLookupShapesExactly` | simu/hbm_lookup_update/pybind/pybind_hbm_lookup_update.cpp:63-116 | the checks return a shape if and only if the dimensions agree in its one- or two-dimensional layout and every flat index fits 32 bits; everything else is rejected |
| `LookupVec.NoWrap` | simu/hbm_lookup_update/src/hbm_lookup_update_kernel.cpp:91-107 | for accepted shapes no 32-bit ceil-div, align, tile count or stride of the kernel wraps |
| `LookupVec.FillTile` | simu/hbm_lookup_update/src/hbm_lookup_update_kernel.cpp:109-126 | both branches of the tile body: listed states, then zeros |
| `LookupVec.LookupTile` | simu/hbm_lookup_update/src/hbm_lookup_update_kernel.cpp:101-131 | a tile writes its 64 padded cells and no others |
| `LookupVec.Process` | simu/hbm_lookup_update/src/hbm_lookup_update_kernel.cpp:100-132 | one core writes exactly its own tiles, each once |
| `LookupVec.Launch` | simu/hbm_lookup_update/src/hbm_lookup_update_kernel.cpp:88-133 | for any block count from 1 to 64 and any order of cores every padded cell is written exactly once |
| `LookupVec.LookedUp` | simu/hbm_lookup_update/src/hbm_lookup_update_kernel.cpp:100-131 | then out[r][i] is table[r][query[r][i]] for i < queryLen and 0 in the padding |
| `HbmLookupUpdate.LookupRandomUpdate` | simu/hbm_lookup_update/pybind/pybind_hbm_lookup_update.cpp:119-186 | every call, with tensors of any number of dimensions: unacceptable dimensions and percentages are rejected and change nothing; otherwise each query gets the state its token had before the call, in any order of the cores of both launches, and, where queryLen * percent fits 32 bits, a row with distinct keys gets the new states of exactly queryLen * percent / 100 pairwise distinct positions and nothing else changes |
| `GridStride.NextMine` | simu/hbm_lookup_update/src/hbm_lookup_update_kernel.cpp:100 | the strided counter visits exactly the items congruent to the core number |
| `GridStride.AllOwned` | simu/hbm_lookup_update/src/hbm_lookup_update_kernel.cpp:100 | every item belongs to one of the cores, whatever the launch order |
| `Bytes.LoadLe` | MicroKV/src/protocol.h:31-67 | storing and loading a value that fits gives it back |
| `Bytes.LeLoad` | MicroKV/src/protocol.h:31-67 | loading and storing bytes gives them back |
| `Bytes.LoadLe16` | MicroKV/src/protocol.h:31-34 | the two-byte expression is the little-endian value |
| `Bytes.LoadLe32` | MicroKV/src/protocol.h:36-41 | the four-byte expression is the little-endian value |
| `Bytes.LoadLe64` | MicroKV/src/protocol.h:43-49 | the shifting loop computes the little-endian value |
| `Bytes.StoreLe64` | MicroKV/src/protocol.h:63-67 | the storing loop writes the low-order bytes |
| `KvServer.ReadExact` | MicroKV/src/server.cpp:20-38 | however the stream is chunked and receives are interrupted, exactly the asked bytes are read, or the stream, ended by its peer or by an error, is used up |
| `KvServer.WriteAll` | MicroKV/src/server.cpp:40-55 | however sends are split and interrupted, exactly the given bytes are sent in order, or, when sending fails, a part of them from the front |
| `KvServer.SendResponse` | MicroKV/src/server.cpp:311-320 | the encoded response, or nothing when its length does not fit 32 bits; it reports failure exactly then and when sending fails |
| `KvServer.KVStore.Put` | MicroKV/src/kv_store.cpp:14-17 | inserts or replaces one value of one type |
| `KvServer.KVStore.Get` | MicroKV/src/kv_store.cpp:19-31 | the value, or nothing when type or key is absent |
| `KvServer.KVStore.Exists` | MicroKV/src/kv_store.cpp:33-39 | whether a get would find a value |
| `KvServer.KVStore.Clear` | MicroKV/src/kv_store.cpp:41-43 | removes every key of one type and no other |
| `KvServer.KVStore.Size` | MicroKV/src/kv_store.cpp:45-51 | the number of keys that a get of this type finds |
| `KvProtocol.SizeIsKeyCount` | MicroKV/src/kv_store.cpp:45-51 | the size is the cardinality of the set of keys that have a value of the type |
| `KvProtocol.PutSize` | MicroKV/src/kv_store.cpp:14-17 | a put adds one to the size exactly when the key is new, and changes no other size |
| `KvProtocol.ClearSize` | MicroKV/src/kv_store.cpp:41-43 | a clear leaves size 0 and the other sizes as they were |
| `KvProtocol.LastItemWins` | MicroKV/src/server.cpp:205-216 | of several items of a batch_put with one key the last is what a get finds |
| `KvServer.Server.Put` | MicroKV/src/server.cpp:140-155 | reads key and value, stores, answers; a stream that ends inside the request stores nothing |
| `KvServer.Server.BatchPut` | MicroKV/src/server.cpp:195-218 | count limits and missing counts are refused; items read before the stream ends are stored |
| `KvServer.Server.BatchGet` | MicroKV/src/server.cpp:220-251 | one answer per key in order |
| `KvServer.Server.BatchExists` | MicroKV/src/server.cpp:253-278 | one flag per key in order |
| `KvServer.Server.HandleRequest` | MicroKV/src/server.cpp:134-309 | all eight commands and every refusal |
| `KvServer.Server.HandleClient` | MicroKV/src/server.cpp:122-132 | the whole session of a connection, for every chunking of its bytes, is the specified session; when sending fails, the requests up to the one whose answer was cut short are applied and all earlier ones answered |
| `KvServer.TurnsPrefix` | MicroKV/src/server.cpp:122-132 | so whatever was sent is always the beginning of what the whole session sends |
| `KvSession.TurnExact` | MicroKV/src/server.cpp:134-309 | a well-formed request at the front of the stream: exactly its bytes are consumed, the store and answer are the abstract ones |
| `KvSession.OverLimitRefused` | MicroKV/src/server.cpp:200-204 | a batch that the client lets through and that is past the server's limit is refused once its count is read, and changes nothing |
| `KvSession.CutExact` | MicroKV/src/server.cpp:134-309 | a request whose bytes end early: a batch without its count is refused, and otherwise nothing is answered and nothing stored except the items of a batch_put that arrived whole |
| `KvSession.BatchLimit` | MicroKV/src/server.cpp:200-204 | a batch of 1,000,000 is accepted and no larger one |
| `KvSession.WireRequests` | MicroKV/src/protocol.h:9-22 | the bytes of the five requests without a count |
| `KvSession.WireBatches` | MicroKV/src/protocol.h:9-22 | the bytes of the three batch requests |
| `KvSession.WireAnswers` | MicroKV/src/protocol.h:24-29 | the bytes of the answers without a payload and of one batch_get item |
| `KvSession.SessionExact` | MicroKV/src/server.cpp:122-309 | for every sequence of requests the client lets through the session is the abstract conversation; a batch past the limit or the first answer too long for the wire ends it |
| `KvSession.MalformedRefused` | MicroKV/src/server.cpp:134-309 | a header that no well-formed request has is answered with BadRequest, changes nothing, reads nothing more and closes the connection |
| `KvProtocol.OnlyBatchGetOverflows` | MicroKV/src/server.cpp:311-314 | with values below 2^32 bytes only batch_get can have an answer that does not fit |
| `KvClient.MakeKeyInjective` | MicroKV/python/microkv/client.py:43-63 | different integer request, layer, position or type give different keys |
| `KvClient.ParseBatchGetPayload` | MicroKV/python/microkv/client.py:190-210 | the parsing loop computes the recursive parse, with the same rejections |
| `KvClient.AcceptsExactly` | MicroKV/python/microkv/client.py:190-210 | a payload is accepted with certain values if and only if it is a count and that many items of flag, length and data that read as these values, any flag other than 0 meaning that the value is there |
| `KvClient.ParseInverts` | MicroKV/python/microkv/client.py:190-210 | the parser inverts the server's batch_get encoding |
| `KvClient.PrefixFree` | MicroKV/python/microkv/client.py:208-209 | no accepted payload is a proper prefix of another |
| `KvClient.CutOrExtendedRejected` | MicroKV/python/microkv/client.py:197-209 | every proper prefix and every proper extension of a server payload is rejected |
| `KvClient.ExistsInverts` | MicroKV/python/microkv/client.py:213-220 | the batch_exists parser inverts the server's encoding |
| `KvClient.ExistsAcceptsExactly` | MicroKV/python/microkv/client.py:213-220 | a payload is accepted with certain flags if and only if it is their count and one byte for each, which is not 0 exactly when the flag is set |
| `KvClient.ExistsPrefixFree` | MicroKV/python/microkv/client.py:217-219 | no accepted batch_exists payload is a proper prefix of another |
| `KvClientSession.PackKeyList` | MicroKV/python/microkv/client.py:180-187 | the packing loop writes the count and every key |
| `KvClientSession.PackItemList` | MicroKV/python/microkv/client.py:112-119 | the packing loop writes the count and every key, length and value |
| `KvClientSession.KVStoreClient.RequestRaw` | MicroKV/python/microkv/client.py:153-168 | sends header and body, and reads exactly one response; a failed send reads nothing |
| `KvClientSession.KVStoreClient.Call` | MicroKV/python/microkv/client.py:83-148 | arguments that fail validation send nothing; otherwise sends the encoded request, consumes the first response on the stream and returns what it means for that call |
| `KvClientSession.KVStoreClient.CallAll` | MicroKV/python/microkv/client.py:83-168 | a list of calls, one after the other, returns the outcomes read from the stream, until one gets no response |
| `KvClientSession.ReadsExactly` | MicroKV/python/microkv/client.py:83-148 | for every kind of call, status and payload, exactly which of them give which outcome; all others raise |
| `KvClientSession.OutcomeIsMeaning` | MicroKV/python/microkv/client.py:83-148 | each answerable call is read as what the store says |
| `KvClientSession.EndToEnd` | MicroKV/python/microkv/client.py:83-220 | for every store and every sequence of calls the client lets through, the calls return what the abstract store says at each point if and only if every batch has at most 1,000,000 items, every answer is at most 2^32 - 1 bytes and every count fits 64 bits |
| `KvClientSession.LargeAnswerFails` | MicroKV/src/server.cpp:311-314 | the code misses that on this input: a 4290-byte value read 1,000,000 times by one batch_get |
| `KvClientSession.LargeBatchFails` | MicroKV/src/server.cpp:253-260 | and on a batch of 1,000,001 keys, which the client sends and the server refuses |
| `KvClientSession.Converse` | MicroKV/python/microkv/client.py:83-168 | client and server on the two ends of a connection, one call at a time: unless sending fails, the outcomes and the store are those of the session, and the outcomes are the store's if and only if every call is answerable |

## Left out

- Memory order inside a phase of the SIMT kernel: steps are sequentially consistent, and the fences and barriers are taken to do what they are for.
- Several request rows of the SIMT, lookup and maintain kernels: each call is modelled for one row. Rows are disjoint slices at multiples of the row size; the strided request loop itself is modelled for the update and table-lookup kernels.
- HbmLookupKernel.AllocateMisses: takes as a precondition that no miss reads past the free list, because what lies behind it is another row; `HbmIndex.FreeListSuffices` says exactly when that holds on partitioned rows, and the reference loop, which raises an error there, is modelled with its failure.
- HbmLookupKernel.LookupKernel: the same precondition, for the same reason.
- HbmKernels.Request.MaintainEviction: takes as a precondition that enough slots are evictable, because the loop does not end otherwise (`HbmMaintain.FinishesExactly`).
- KvKernel.AsuKvResolverKernel.Process: takes as a precondition that no access leaves the tensors; what lies outside them is not modelled.
- KvServer.Server.HandleClient: one connection; a store operation is atomic, and operations of other connections between the items of a batch are not modelled.
- KvClientSession.KVStoreClient.Call: the eight client methods are one method over a request value, and every exception is one failed outcome; a closed client is not modelled.
- The manager object over all layers: its loop over contexts is modelled on values (`KvLayers.PrepareAll`, `KvLayers.DecodeLayers`), so what is not captured there is the update in place of each context; steps after a preparation that failed half-way, which leaves the layers out of step, are modelled layer by layer only.
- Vector instruction details: data copies, pipe barriers and the int/float reinterpretation in gather and select.
- Hash functions: mixing quality of `Hash32`, SHA-256 for string request indices, and the FNV hash of the store.
- Random workload generation, `validate_config`, argument parsing, benchmarks and printing.
- Operator definitions, shape inference, tiling registration, launch code and builds.
- The attention kernels of patches 0002 and 0004.
