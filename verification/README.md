# A Dafny model of dispatch, allocation, tiling, pinning and linting

This project models five pieces of logic of the repository, states what they are for, and proves it with Dafny 4.11:

* **Prefill dispatch** (`MoeDispatch`, `MoeProperties`): every rank ranks its routed slots per expert, announces
  counts and offsets, and copies rows out of the other ranks' windows. Together the ranks perform a distributed
  stable counting sort.
* **The chunked sleep-mode allocator**, ROCm side (`ChunkAllocator`, `ChunkRuns`, `ChunkFaults`, `DisjointMaps`): a
  reserved range, physical chunks that come and go, a sticky error code. The driver is a record of answers per call, so
  a statement over all records is a statement over everything the driver may do. A call that answers 0 has its effect
  and any other call has none. `ChunkRuns` has what every harmless call keeps, `ChunkFaults` the states from which the
  allocator does not recover.
* **HammingDistTopK** (`HammingReduce`, `HammingTiling`, `HammingTasks`): the tiled chunk reduction, the buffer sizes
  of the host, the split over cores in 32-bit arithmetic, and the two key address forms.
* **CPU pools for NPUs** (`CpuPools`, `CpuTopology`, `CpuAllocation`, `Sorting`): several processes compute their
  pools from the same host facts without talking to each other.
* **The docs/YAML linter and arithmetic in `utils.py`** (`SyncTargets`, `SyncPaths`, `SyncBlocks`, `SyncDocuments`,
  `SyncCommands`, `SyncCompare`, `Text`, `NzLayout`, `CaptureSizes`): parsers against printers and grammars, a
  comparison of multisets, the NZ memory layout, and the sampler of capture sizes with its budget.

`Collections` holds sequence and quotient lemmas. Loops of the source are methods proved against specification
functions; the theorems are lemmas about those functions, and say what they compute without naming them.

## Findings

Properties that the code has only under a condition. Each lemma gives the exact condition, for all inputs.

* The receive table is an int32: rows are addressed correctly if and only if a rank receives at most 2^31 - 1 rows
  (`MoeProperties.AllRowsInsideIff`); beyond that some slot gets a negative row.
* With the 254-token tile and chunks of 8 or 16, chunks that straddle a tile boundary are lost
  (`HammingTiling.HostTilingExactIff`).
* The effective length is documented as skipping the incomplete last chunk; the code also skips 16 more tokens
  (`HammingTiling.CompleteChunksDropped`).
* The default chunk size 1 writes past the output buffer from 147 key tokens on (`HammingTiling.DefaultChunkFitsIff`).
* InferShape and the tiling disagree once the 32-bit product by 100 wraps (`HammingTiling.LengthsAgreeIff`).
* The stride of the loop over tasks wraps at 2^32: tasks are repeated, or a core never stops, once batch * head plus the
  number of cores passes 2^32 (`HammingTasks.CompleteIff`).
* The kernels index their tables with the expert of every slot, without the test for unrouted slots that the host has:
  all accesses are in bounds if and only if every slot has an expert (`MoeDispatch.InBoundsIff`).
* A wake entered with an error pending fails, and leaks its first chunk unless already its first create fails
  (`ChunkFaults.WakeWithPendingError`). my_free leaves such an error if and only if some call of it fails
  (`ChunkFaults.FreeReports`, `WakeAfterFreeIff`), as when the driver rejects unmapping an allocation that is asleep;
  `sleep` in `cumem.py` ends with `empty_cache`, which frees asleep allocations.
* Waking an allocation that is awake fails, and unless already the first create fails its cells then name dead handles
  (`ChunkRuns.WakeAwakeKeepsIff`, `WakeAwakeLoses`), so that neither sleep nor my_free gives its memory back
  (`ChunkFaults.LostMemoryStays`). The public interface does this: `sleep()`, `wake_up(tags=["weights"])`, `wake_up()`
  (vllm/vllm/v1/executor/abstract.py:324-341, vllm/vllm/device_allocator/cumem.py:238-241).
* Sleeping or freeing an asleep allocation releases stale handles; if the driver has given one of them to another
  allocation, that one loses its memory (`ChunkRuns.SleepKeepsIff`, `FreeKeepsIff`, `ChunkFaults.StaleReleaseDestroys`).
  A driver that issues a handle value again leads there in three calls (`ChunkFaults.ReissuedHandle`, `StaleReached`).
* A failure to set the access rights is not rolled back (`ChunkRuns.FailureLeavesNothingIff`): my_malloc returns null
  with the chunks live and mapped in a range that is no longer reserved (`ChunkFaults.FailedAccess`).
* my_malloc that returns null has left the driver as it was only under the condition of `ChunkRuns.MallocKeeps`; a cell
  that cannot be allocated or a callback that raises leaves the range reserved.
* Sleep loses the range when the re-reservation fails or moves (`ChunkRuns.SleepKeepsIff`).
* A my_malloc that fails after Python recorded the allocation leaves the entry in Python's table
  (`ChunkFaults.StaleEntryIff`).
* The comment in `build_cpu_pools` says that considering all NPUs avoids overlap across worker processes. It does so
  within a group; NPUs on neighbouring NUMA nodes overlap as soon as there are three nodes
  (`CpuTopology.ProcessesApartIff`, `NeighboursOverlap`, and the host of `ThreeNodesOverlap`).
* A parsed command whose value starts with two dashes after normalisation does not parse to itself again
  (`SyncCommands.ReparseIff`).
* An option name that contains a space can hide a difference between two commands (`SyncCompare.ExactIff`).
* The sampler divides by zero or indexes an empty list when the budget has room for fewer than two sizes
  (`CaptureSizes.NewSizesFailIff`), and an empty model configuration leaves the capture sizes cleared
  (`CaptureSizes.CompilationConfig.UpdateAclGraphSizes`).

## Model

| member | source | states |
|---|---|---|
| `MoeDispatch.RankSlots` | vllm-ascend/csrc/torch_binding.cpp:645-660 | After the nested loops every slot that has an expert holds the number of earlier slots of that expert, and each counter holds the size of its expert: a stable ranking |
| `MoeDispatch.SlotAtRank` | vllm-ascend/csrc/torch_binding.cpp:651-658 | The slot of rank j within its expert is the j-th slot of that expert in row-major order |
| `MoeDispatch.LayoutReceive` | vllm-ascend/csrc/torch_binding.cpp:674-697 | Given the received triples, the loops write into each table entry once: the inclusive prefix sum of the counts in expert-major order as an int32, the offset, and the totals per expert |
| `MoeDispatch.AssembleSendData` | vllm-ascend/csrc/notify_dispatch/op_kernel/notify_dispatch.h:127-141 | The triples sent about the experts are count, exclusive prefix sum, number of tokens |
| `MoeDispatch.ExchangedTriple` | vllm-ascend/csrc/torch_binding.cpp:680-682 | After the exchange, triple src * L + e of a rank is what source rank src said about the rank's expert e |
| `MoeDispatch.InBoundsIff` | vllm-ascend/csrc/moe_dispatch_normal/op_kernel/moe_dispatch_normal.h:358-360 | The access to the offset of each slot's expert, whose id is converted to an int32 and read as a uint32, is inside the table for all slots if and only if every slot has an expert |
| `MoeDispatch.InputToShare` | vllm-ascend/csrc/moe_dispatch_normal/op_kernel/moe_dispatch_normal.h:322-387 | When every slot has an expert, each is copied to its expert's offset plus its rank, so the window holds the slots grouped by expert, stably |
| `MoeDispatch.ShareToOutput` | vllm-ascend/csrc/moe_dispatch_normal/op_kernel/moe_dispatch_normal.h:478-521 | Reading block after block through the two tables leaves in the receive buffer the concatenation of the blocks |
| `MoeDispatch.Dispatch` | vllm-ascend/csrc/torch_binding.cpp:605-713 | Sending, exchanging and receiving over any number of ranks and any routing that gives every slot an expert leaves on every rank exactly the slots routed to it, by local expert, then source rank, then sender order |
| `MoeProperties.DispatchInOrder` | vllm-ascend/csrc/torch_binding.cpp:605-713 | Said without the tables: the dispatch leaves on every rank exactly the choices of tokens whose expert is on that rank, each once, by expert, then source rank, then token, then choice |
| `MoeProperties.RowHoldsChoice` | vllm-ascend/csrc/moe_dispatch_normal/op_kernel/moe_dispatch_normal.h:357-383 | The row of choice j of token i of rank src holds the triple (src, i, j) |
| `MoeProperties.AnnouncedTokens` | vllm-ascend/csrc/torch_binding.cpp:683-690 | num_max_dispatch_tokens_per_rank is the largest number of tokens of any rank |
| `MoeProperties.ReceivedPerExpert` | vllm-ascend/csrc/torch_binding.cpp:674-697 | The number reported for a local expert is that of the slots all ranks route to it |
| `MoeProperties.RowHolds` | vllm-ascend/csrc/torch_binding.cpp:645-692 | The row recv_count - recv_cnt + send_token_idx of a routed slot is inside the buffer and holds that slot |
| `MoeProperties.RowOnlyHolds` | vllm-ascend/csrc/torch_binding.cpp:645-692 | Every row of the buffer is the row of some slot routed to the rank |
| `MoeProperties.RowInjective` | vllm-ascend/csrc/torch_binding.cpp:645-692 | Two routed slots with one row are the same slot |
| `MoeProperties.RowOrder` | vllm-ascend/csrc/torch_binding.cpp:674-692 | Rows are ordered by local expert, then source rank, then the sender's row-major order, in both directions |
| `MoeProperties.AllRowsInsideIff` | vllm-ascend/csrc/torch_binding.cpp:684-686 | All routed slots have their rows inside the buffer if and only if the buffer has at most 2^31 - 1 rows: recv_count is an int32 |
| `MoeProperties.RowsAreConserved` | vllm-ascend/csrc/torch_binding.cpp:645-697 | Over all ranks, as many rows are received as slots with an expert are sent |
| `MoeProperties.TableMonotoneIff` | vllm-ascend/csrc/torch_binding.cpp:684-686 | The stored prefix sums never decrease if and only if their total fits in an int32, and then the last one is the total |
| `MoeProperties.ExpertCountIsDifference` | vllm-ascend/csrc/torch_binding.cpp:674-694 | num_recv_tokens_per_expert is the difference of the prefix sums at the ends of the expert's row |
| `ChunkAllocator.Allocator.CreateAndMap` | vllm/csrc/cumem_allocator.cpp:150-190 | The loops with their rollbacks, testing the sticky error code, do to the driver, the cells and the error code what AfterCreateAndMap says for any answers of the driver |
| `ChunkAllocator.Allocator.UnmapAndRelease` | vllm/csrc/cumem_allocator.cpp:216-261 | The same for unmapping, releasing and the free-and-reserve cycle |
| `ChunkAllocator.Allocator.Malloc` | vllm/csrc/cumem_allocator.cpp:321-449 | The same for my_malloc, for any answers of the driver, the C library and Python: reservation, cells, registration in Python, mapping, rollback |
| `ChunkAllocator.Allocator.Free` | vllm/csrc/cumem_allocator.cpp:452-560 | The same for my_free, which keeps the error code |
| `ChunkAllocator.Allocator.Sleep` | vllm/csrc/cumem_allocator.cpp:588-684 | The same for sleep, which reports the error code once and clears it |
| `ChunkAllocator.Allocator.Wake` | vllm/csrc/cumem_allocator.cpp:686-751 | The same for wake |
| `ChunkRuns.FailureLeavesNothing` | vllm/csrc/cumem_allocator.cpp:150-180 | Entered without an error, create_and_map with a create or map failing at any chunk leaves no handle and no mapping |
| `ChunkRuns.FailureLeavesNothingIff` | vllm/csrc/cumem_allocator.cpp:150-190 | A create_and_map that reports an error leaves the driver as it was if and only if it was entered without an error and a create or map failed, or entered with one and its first create failed; so a failure to set the access leaves everything mapped |
| `ChunkRuns.ChunksSum` | vllm/csrc/cumem_allocator.cpp:364-392 | The chunks of a request are full except possibly the last, and add up to the aligned size |
| `ChunkRuns.EntryIsAligned` | vllm/csrc/cumem_allocator.cpp:341-392 | Whatever my_malloc reserves or records has the least multiple of the granularity that is at least the request; the chunks are positive multiples that add up to it, and all but the last are the least multiple that is at least the base chunk |
| `ChunkRuns.MallocKeeps` | vllm/csrc/cumem_allocator.cpp:321-449 | For all answers with fresh names and working rollbacks: my_malloc returns a pointer, and there is one more awake allocation, if and only if every call succeeds; the driver, and all that the live allocations own, is as before if and only if the request was refused before the reservation, or the entry was recorded, the range freed and create_and_map left nothing |
| `ChunkFaults.FailedAccess` | vllm/csrc/cumem_allocator.cpp:433-446 | When only setting the access fails, my_malloc returns null, frees the range and leaves every chunk live and mapped |
| `ChunkFaults.StaleEntryIff` | vllm/csrc/cumem_allocator.cpp:409-449 | my_malloc leaves a table entry without a reservation if and only if it recorded the entry, create_and_map then met an error, and the range was freed |
| `ChunkRuns.WakeKeeps` | vllm/csrc/cumem_allocator.cpp:686-751 | A wake of an asleep allocation entered without an error gives it new memory at its old address, reported as an error if only the access failed, or leaves it asleep with no memory |
| `ChunkRuns.WakeAwakeKeepsIff` | vllm/csrc/cumem_allocator.cpp:150-180 | A wake of an awake allocation, on a driver that rejects a second mapping, fails and leaves the driver as it was; the cells still name what is live if and only if already the first create failed |
| `ChunkRuns.WakeAwakeLoses` | vllm/csrc/cumem_allocator.cpp:150-180 | After it, otherwise, no list of live allocations with this one awake accounts for the driver and the cells |
| `ChunkFaults.LostMemoryStays` | vllm/vllm/device_allocator/cumem.py:238-241 | After it neither sleep nor my_free of the allocation ends the life of a handle whose cell was overwritten, whatever the driver answers |
| `ChunkFaults.WakeReports` | vllm/csrc/cumem_allocator.cpp:741-750 | A wake reports success if and only if no error was pending and every call succeeds, and always clears the error |
| `ChunkFaults.WakeWithPendingError` | vllm/csrc/cumem_allocator.cpp:150-158 | A wake entered with an error pending always fails, and leaks its first chunk unless the first create fails |
| `ChunkRuns.SleepKeepsIff` | vllm/csrc/cumem_allocator.cpp:216-261 | Sleep takes exactly the memory of the allocation and keeps its range if and only if the range comes back in place and, for an allocation already asleep, no stale handle is live and released |
| `ChunkRuns.SleepReports` | vllm/csrc/cumem_allocator.cpp:670-681 | The caller of sleep sees no error if and only if none was pending, nothing was rejected and the cycle came back in place |
| `ChunkRuns.ReleaseErrorIs` | vllm/csrc/cumem_allocator.cpp:216-261 | The error noted by unmap_and_release is the first it met: of an unmap, a release, the free, the reserve, 1 for a range that moved, else the one pending |
| `ChunkRuns.FreeKeepsIff` | vllm/csrc/cumem_allocator.cpp:452-560 | my_free of an awake or asleep allocation removes exactly what it owned if and only if no range stays reserved and no stale handle is live and released; the reservation survives if and only if the range was still there and the last free was rejected |
| `ChunkFaults.StaleReleaseDestroys` | vllm/csrc/cumem_allocator.cpp:228-233 | Releasing the stale handle of an asleep allocation that another allocation got takes that allocation's memory |
| `ChunkFaults.ReissuedHandle` | vllm/csrc/cumem_allocator.cpp:150-158 | Any granted request whose first handle has the value of a handle that an asleep allocation had leads to such a state |
| `ChunkFaults.StaleReached` | vllm/csrc/cumem_allocator.cpp:321-684 | Such a state is reached from the start by my_malloc, sleep and my_malloc |
| `ChunkFaults.FreeReports` | vllm/csrc/cumem_allocator.cpp:452-560 | my_free leaves no error pending if and only if none was, every unmap and release succeeded, the range was cycled in place and the last free succeeded |
| `ChunkFaults.WakeAfterFreeIff` | vllm/vllm/device_allocator/cumem.py:214-226 | The wake after my_free succeeds if and only if my_free met no error and the wake meets none |
| `ChunkRuns.RunKeeps` | vllm/csrc/cumem_allocator.cpp:321-751 | After every run of malloc, sleep, wake and free whose calls meet the exact conditions of MallocKeeps, SleepKeepsIff, WakeKeeps, WakeAwakeKeepsIff and FreeKeepsIff, the driver holds exactly, and disjointly, what the live allocations own |
| `ChunkRuns.AddressesStable` | vllm/csrc/cumem_allocator.cpp:235-258 | Over every such run that does not free it, an allocation keeps its address, size, chunks and reserved range, whatever is freed besides |
| `ChunkRuns.PhysicalBytes` | vllm/csrc/cumem_allocator.cpp:150-180 | Live physical bytes are the sizes of the awake allocations |
| `ChunkRuns.ByteBacked` | vllm/csrc/cumem_allocator.cpp:159-180 | Every byte of an awake allocation is covered by a mapping of its own |
| `ChunkRuns.CoveredOnce` | vllm/csrc/cumem_allocator.cpp:159-180 | No byte is covered by two mappings |
| `ChunkRuns.AsleepNotCovered` | vllm/csrc/cumem_allocator.cpp:216-226 | No byte of an asleep allocation is covered |
| `ChunkRuns.FreedEverything` | vllm/csrc/cumem_allocator.cpp:452-560 | Such a run that freed all it allocated leaves the driver and the cells empty |
| `HammingReduce.ReduceChunk` | HammingDistTopK/op_kernel/hamming_dist_top_k.cpp:219-239 | The scalar loops append the chunk maxima of one tile |
| `HammingReduce.ReduceTiles` | HammingDistTopK/op_kernel/hamming_dist_top_k.cpp:119-140 | The tile loop leaves the chunk maxima of one tile after the other |
| `HammingReduce.TiledExactIff` | HammingDistTopK/op_kernel/hamming_dist_top_k.cpp:119-140 | The tile loop agrees with one untiled pass on all distances if and only if the tile is a multiple of the chunk or all complete chunks lie in the first tile |
| `HammingReduce.EntryIsChunkMaximum` | HammingDistTopK/op_kernel/hamming_dist_top_k.cpp:230-237 | On such a tile, entry c is the maximum over tokens [c * chunk, (c + 1) * chunk) |
| `HammingReduce.TiledCountIs` | HammingDistTopK/op_kernel/hamming_dist_top_k.cpp:119-138 | The number of entries is (len / tile) * (tile / chunk) + (len % tile) / chunk |
| `HammingReduce.TiledAtMost` | HammingDistTopK/op_kernel/hamming_dist_top_k.cpp:119-138 | That number is at most len / chunk |
| `HammingTiling.HostTilingExactIff` | HammingDistTopK/op_host/hamming_dist_top_k.cpp:65-82 | With contiguous keys and chunks of 8 or 16 the tile loop is exact if and only if there are more than 26624 key tokens, or more than 8192 with a batch below 16, or all complete chunks lie in the first 254 tokens |
| `HammingTiling.PagedTilingExactIff` | HammingDistTopK/op_host/hamming_dist_top_k.cpp:78-81 | With paged keys it is exact if and only if the chunk divides the block size or all complete chunks lie in the first block |
| `HammingTiling.ChosenTileExactIff` | HammingDistTopK/op_host/hamming_dist_top_k.cpp:65-82 | The same for every chunk size and either layout |
| `HammingTiling.EffectiveLenIs` | HammingDistTopK/op_kernel/hamming_dist_top_k.cpp:103-107 | With k complete chunks the effective length is 16 less than they have tokens, never negative; chunk sizes that are not positive count as 1 |
| `HammingTiling.CompleteChunksDropped` | HammingDistTopK/op_kernel/hamming_dist_top_k.cpp:105-107 | For every chunk size the effective length drops, besides the incomplete chunk, as many complete chunks as 16 tokens touch |
| `HammingTiling.LengthsAgreeIff` | HammingDistTopK/op_host/hamming_dist_top_k.cpp:56-62 | The tiling and InferShape compute one output length if and only if the product by 100 fits in 32 bits |
| `HammingTiling.ShapeLenIs` | HammingDistTopK/op_host/hamming_dist_top_k.cpp:222-232 | The declared output length is 130, or two more than a sixteenth of the tokens where that is larger |
| `HammingTiling.HostChunksFit` | HammingDistTopK/op_host/hamming_dist_top_k.cpp:148-149 | With chunks no smaller than the host assumed, no sequence up to the key length writes past the output buffer |
| `HammingTiling.DefaultChunkFitsIff` | HammingDistTopK/op_host/hamming_dist_top_k.cpp:146 | With the default chunk size 1 every sequence fits if and only if there are at most 146 key tokens |
| `HammingTiling.MemoryAt` | HammingDistTopK/op_kernel/hamming_dist_top_k.cpp:176-189 | The contiguous offset of a token addresses that token in memory |
| `HammingTiling.PagedIsContiguous` | HammingDistTopK/op_kernel/hamming_dist_top_k.cpp:176-189 | Reading a token through the block table gives the bytes that contiguous addressing gives on the assembled keys, in bounds |
| `HammingTasks.Process` | HammingDistTopK/op_kernel/hamming_dist_top_k.cpp:81-91 | The loop over tasks of a core, observed for any number of rounds, processes the pairs of the tasks it strides through in 32-bit arithmetic |
| `HammingTasks.CompleteIff` | HammingDistTopK/op_kernel/hamming_dist_top_k.cpp:81-91 | All cores stop and process every (batch, head) pair exactly once if and only if batch * head + usedCoreNum is at most 2^32 |
| `HammingTasks.TasksPerCoreBound` | HammingDistTopK/op_host/hamming_dist_top_k.cpp:157-161 | Under that condition no core runs more than batchPerCore tasks |
| `HammingTasks.TasksPerCoreMet` | HammingDistTopK/op_host/hamming_dist_top_k.cpp:157-161 | The first core runs exactly batchPerCore tasks |
| `HammingTasks.UsedCoresHaveTasks` | HammingDistTopK/op_host/hamming_dist_top_k.cpp:159-160 | Every core the host starts has a task, when there is one, and it starts all cores or one for each task |
| `HammingTasks.WrittenOnce` | HammingDistTopK/op_kernel/hamming_dist_top_k.cpp:260-265 | The write-back ranges are disjoint and cover exactly the declared output: each position is written by one pair, which is in range |
| `CpuPools.SlicesPartition` | vllm-ascend/vllm_ascend/cpu_binding.py:306-311 | The slices of all NPU ids, one after the other, are the sorted allowed CPUs |
| `CpuPools.SliceSize` | vllm-ascend/vllm_ascend/cpu_binding.py:306-311 | Slices differ in size by at most one, the first n % total are the larger ones |
| `CpuPools.GlobalPoolIs` | vllm-ascend/vllm_ascend/cpu_binding.py:298-317 | A pool of a successful process is the slice of the NPU's own id, with at least five CPUs |
| `CpuPools.GetRunningNpus` | vllm-ascend/vllm_ascend/cpu_binding.py:102-131 | The loop over the process table collects the logical ids, fails on a chip that the mapping lacks, keeps the visible ones and fails when none is left |
| `CpuPools.RunningNpusAre` | vllm-ascend/vllm_ascend/cpu_binding.py:102-131 | A process sees exactly the NPUs with a row in the process table that are visible, in order; an unmapped chip and an empty result are errors |
| `CpuPools.RunningIsDelivered` | vllm-ascend/vllm_ascend/cpu_binding.py:121-131 | What a process gets to see is not empty and lies among the logical NPUs of the mapping, so the other ways of counting NPUs are never used |
| `CpuPools.GlobalPoolsOkIff` | vllm-ascend/vllm_ascend/cpu_binding.py:269-317 | Such a process succeeds if and only if there are no CPUs, or five for each logical NPU and every visible id is below their number |
| `CpuPools.GlobalPoolsDisjoint` | vllm-ascend/docs/source/developer_guide/Design_Documents/cpu_binding.md:73-77 | Whatever two processes see, global slices give distinct NPUs no common CPU |
| `CpuAllocation.SlicedPoolsDisjoint` | vllm-ascend/vllm_ascend/cpu_binding.py:331-339 | So in the slice mode, and in the other without a topology, build_cpu_pools of two processes gives distinct NPUs no common CPU |
| `CpuAllocation.ModeDecides` | vllm-ascend/vllm_ascend/cpu_binding.py:324-341 | Without NUMA nodes build_cpu_pools fails; else the mode and the topology decide which of the two algorithms runs |
| `CpuAllocation.TopoPoolContents` | vllm-ascend/vllm_ascend/cpu_binding.py:341-371 | In the topology mode a pool has only allowed CPUs that are in the NPU's list or on the next node |
| `CpuAllocation.TopoPoolsAgree` | vllm-ascend/vllm_ascend/cpu_binding.py:341-371 | In the topology mode two processes give a common NPU one pool, and of two NPUs with one extended list the lower id gets the lower CPUs |
| `CpuTopology.ExtendedIs` | vllm-ascend/vllm_ascend/cpu_binding.py:218-230 | The extended list of an NPU has exactly its allowed CPUs, and those of the next node when they are all on one |
| `CpuTopology.ExtendedOkIff` | vllm-ascend/vllm_ascend/cpu_binding.py:350-357 | The layout exists if and only if every candidate has an allowed CPU and all its allowed CPUs are in the CPU table |
| `CpuTopology.TopoPoolsAreHostPools` | vllm-ascend/vllm_ascend/cpu_binding.py:341-371 | A process succeeds if and only if the layout that the host alone determines exists and contains all it sees, and it then gets that layout |
| `CpuTopology.ProcessesAgree` | vllm-ascend/vllm_ascend/cpu_binding.py:341-371 | Two successful processes give an NPU that both see the same pool |
| `CpuTopology.GroupCovers` | vllm-ascend/vllm_ascend/cpu_binding.py:207-216 | The shares of the NPUs with one extended list are together exactly that list |
| `CpuTopology.ShareSize` | vllm-ascend/vllm_ascend/cpu_binding.py:207-216 | No member of a group gets fewer CPUs than the quotient, and only the last one more |
| `CpuTopology.GroupSharesDisjoint` | vllm-ascend/vllm_ascend/cpu_binding.py:359-371 | In different processes, two NPUs of one group get disjoint shares |
| `CpuTopology.ProcessesApartIff` | vllm-ascend/vllm_ascend/cpu_binding.py:341-371 | Distinct NPUs never share a CPU across processes if and only if the extended lists of any two candidates are equal or disjoint |
| `CpuTopology.NeighboursOverlap` | vllm-ascend/vllm_ascend/cpu_binding.py:218-230 | With three NUMA nodes or more, an NPU on one node and an NPU on the next always share CPUs across processes |
| `CpuTopology.ThreeNodesOverlap` | vllm-ascend/vllm_ascend/cpu_binding.py:343-371 | A host of three nodes with five CPUs each and two NPUs, on which two processes each get enough CPUs to bind and have five of them in common |
| `CpuAllocation.CpuAlloc.BuildCpuPools` | vllm-ascend/vllm_ascend/cpu_binding.py:324-371 | The loops over candidates, groups and slices, with their early errors, compute the pools of the specification |
| `CpuAllocation.DistributeGroups` | vllm-ascend/vllm_ascend/cpu_binding.py:359-369 | Grouping by list and dividing each group gives every candidate its share |
| `CpuAllocation.CpuAlloc.Allocate` | vllm-ascend/vllm_ascend/cpu_binding.py:373-385 | Allocation succeeds if and only if every pool has five CPUs, and fills the three tables |
| `CpuAllocation.RolesCoverPool` | vllm-ascend/vllm_ascend/cpu_binding.py:374-385 | The roles use up the pool, with at least one CPU for the main process |
| `CpuAllocation.RoleSizes` | vllm-ascend/vllm_ascend/cpu_binding.py:374-381 | Two CPUs of a pool take interrupts, one serves ACL, one release, and the main process has the rest |
| `CpuAllocation.EachCpuServesOnce` | vllm-ascend/docs/source/developer_guide/Design_Documents/cpu_binding.md:74-87 | With slices, over all processes and whatever they see, a CPU that build_cpu_pools hands out serves one role of one NPU |
| `SyncTargets.ParseSegments` | vllm-ascend/tools/check_docs_yaml_sync.py:312-363 | The character loop is the automaton |
| `SyncTargets.ParsePrint` | vllm-ascend/tools/check_docs_yaml_sync.py:312-363 | Parsing undoes printing, for every non-empty list of indices and printable keys |
| `SyncTargets.ParsedIff` | vllm-ascend/tools/check_docs_yaml_sync.py:312-363 | A list of segments is the parse of some path if and only if it is not empty and every key is bare or quotable |
| `SyncPaths.ParseByMeaning` | vllm-ascend/tools/check_docs_yaml_sync.py:312-363 | Every path written from dots, names and brackets with quoted and unquoted pieces, perhaps left open at its end, parses to the meaning of its elements, with the same errors |
| `SyncPaths.EveryPath` | vllm-ascend/tools/check_docs_yaml_sync.py:312-363 | Every string is such a path |
| `SyncTargets.Resolve` | vllm-ascend/tools/check_docs_yaml_sync.py:365-387 | Resolving a path is parsing it and walking the document, with the same errors |
| `SyncTargets.ResolvePrinted` | vllm-ascend/tools/check_docs_yaml_sync.py:365-387 | Resolving a printed path is a direct walk of its list, one level per accessor |
| `SyncTargets.ResolveReadsBack` | vllm-ascend/tools/check_docs_yaml_sync.py:365-387 | Resolving the printed path of a position in a document built around a value gives that value |
| `SyncTargets.WalkIff` | vllm-ascend/tools/check_docs_yaml_sync.py:365-387 | Accessors lead to a value if and only if the document is built around it with them |
| `SyncTargets.WalkFailsIff` | vllm-ascend/tools/check_docs_yaml_sync.py:365-387 | They fail if and only if the value some part of them leads to lacks the next one, each kind of lack with its own error |
| `SyncBlocks.Extract` | vllm-ascend/tools/check_docs_yaml_sync.py:200-276 | The scan over the lines yields the blocks and diagnostics of the specification |
| `SyncBlocks.OpenerIff` | vllm-ascend/tools/check_docs_yaml_sync.py:26 | A line opens a test fence if and only if it is the fence, white space, one word and perhaps more white space |
| `SyncBlocks.OptionIff` | vllm-ascend/tools/check_docs_yaml_sync.py:27 | A line is an option with a name and a value if and only if it is the name between colons, white space and the value |
| `SyncBlocks.BlockIs` | vllm-ascend/tools/check_docs_yaml_sync.py:241-262 | A closed fence with all fields is a block with them, and its content is the joined script without the white space at its ends |
| `SyncBlocks.ProblemIs` | vllm-ascend/tools/check_docs_yaml_sync.py:237-252 | Otherwise the diagnostic lists exactly the missing fields, in their order, with a dash for a missing value |
| `SyncBlocks.NoBlocksIff` | vllm-ascend/tools/check_docs_yaml_sync.py:266-274 | A document is reported to have no test fence if and only if no line opens one |
| `SyncDocuments.LastOptionCounts` | vllm-ascend/tools/check_docs_yaml_sync.py:223-228 | An option has the value of the last line that sets it |
| `SyncDocuments.ScanRendered` | vllm-ascend/tools/check_docs_yaml_sync.py:200-262 | Scanning a document written from items yields exactly its fences, each at its line with its own options and script, and the unclosed tail |
| `SyncDocuments.EveryTextIsADocument` | vllm-ascend/tools/check_docs_yaml_sync.py:200-262 | Every list of lines is such a document |
| `SyncDocuments.DocumentRoundTrip` | vllm-ascend/tools/check_docs_yaml_sync.py:200-276 | Extracting a document of text and sync blocks yields exactly those blocks at their lines, and a diagnostic if and only if there is no block |
| `SyncDocuments.ContentIsScript` | vllm-ascend/tools/check_docs_yaml_sync.py:257 | The content of a block is its script if and only if the script is trimmed |
| `SyncCommands.ParseTokens` | vllm-ascend/tools/check_docs_yaml_sync.py:476-507 | The token loop is the specification, with the same errors in the same order |
| `Text.SplitWeave` | vllm-ascend/tools/check_docs_yaml_sync.py:497 | Splitting words with any white space between and around them gives the words |
| `Text.EveryTextIsWoven` | vllm-ascend/tools/check_docs_yaml_sync.py:497 | Every text is words with white space between and around them |
| `SyncCommands.ParsedIff` | vllm-ascend/tools/check_docs_yaml_sync.py:476-507 | Tokens parse to a command if and only if they are the tokens of a command with an operand as model and as values and distinct options as names, and the parse has the same words in the model and in every value, with one space between them |
| `SyncCommands.ErrorIff` | vllm-ascend/tools/check_docs_yaml_sync.py:476-494 | Every error, exactly: no command, no model, or the first token after a writable command that is an operand too many or an option given before |
| `SyncCommands.IsParsedIff` | vllm-ascend/tools/check_docs_yaml_sync.py:476-507 | What the parser can return, exactly |
| `SyncCommands.ReparseIff` | vllm-ascend/tools/check_docs_yaml_sync.py:476-507 | The tokens of a parsed command parse to it again if and only if neither its model nor a value starts with two dashes |
| `SyncCompare.EntriesConserved` | vllm-ascend/tools/check_docs_yaml_sync.py:561-571 | Each side and what it misses make up the other side and its extras, as multisets; there is no difference if and only if the multisets are equal |
| `SyncCompare.ExactIff` | vllm-ascend/tools/check_docs_yaml_sync.py:106-118 | Over a set of option names, an empty comparison means the same model and the same parameters if and only if no name is another one followed by a space and a value |
| `NzLayout.NzElement` | vllm-ascend/vllm_ascend/utils.py:219-239 | Element (r, c) of the padded matrix is at tile c / 16, row r, column c % 16; all padding is zero |
| `NzLayout.NzCovered` | vllm-ascend/vllm_ascend/utils.py:219-239 | Every position of the result is some element's |
| `NzLayout.NdToNzSpec` | vllm-ascend/vllm_ascend/utils.py:241-251 | The buffer of zeros with the rows copied in has the layout of nd_to_nz_2d |
| `NzLayout.TransOkIff` | vllm-ascend/vllm_ascend/utils.py:1360-1381 | trans_nd_to_nz succeeds if and only if the matrix is empty or both sides are multiples of the tile |
| `NzLayout.TransElement` | vllm-ascend/vllm_ascend/utils.py:1360-1381 | Column i of tile j of row r goes to offset j * rows * width + r * width + i |
| `NzLayout.TransIsBijection` | vllm-ascend/vllm_ascend/utils.py:1360-1381 | Exchanging the tiles back restores the matrix |
| `NzLayout.SameLayout` | vllm-ascend/vllm_ascend/utils.py:219-251 | On multiples of 16 all three functions produce the same memory |
| `CaptureSizes.RoundIsNear` | vllm-ascend/vllm_ascend/utils.py:581-582 | The rounded index is within one half of the exact one |
| `CaptureSizes.IndexIsNear` | vllm-ascend/vllm_ascend/utils.py:581-582 | Sample index i is i * (n - 1) / (m - 1) rounded to the nearest integer, half way to the even one |
| `CaptureSizes.IndexIncreases` | vllm-ascend/vllm_ascend/utils.py:581-585 | Sampled indices strictly increase |
| `CaptureSizes.SampleKeepsEnds` | vllm-ascend/vllm_ascend/utils.py:579-587 | A sample has the asked length, both ends of the list, and its order |
| `CaptureSizes.MaxSizesIsLargest` | vllm-ascend/vllm_ascend/utils.py:525-567 | max_num_batch_sizes is the largest number of sizes whose streams, summed over the configuration with what each branch holds back, fit in 1800 |
| `CaptureSizes.NewSizesFailIff` | vllm-ascend/vllm_ascend/utils.py:579-585 | The update fails if and only if neither the list nor two sizes fit in the streams |
| `CaptureSizes.NewSizesFit` | vllm-ascend/vllm_ascend/utils.py:579-600 | The new list fits in the streams, is as long as they allow when shortened, is the old one when that fits, and keeps ends and order |
| `CaptureSizes.CompilationConfig.UpdateCaptureSizes` | vllm-ascend/vllm_ascend/utils.py:443-472 | An inconsistent maximum is an error only when sizes are set; else both fields are replaced |
| `CaptureSizes.CompilationConfig.UpdateAclGraphSizes` | vllm-ascend/vllm_ascend/utils.py:475-606 | What becomes of both fields in every case: no model, an error, a sample, no change |

## Left out

* MoE kernels: the split of the copies over device cores, queues and synchronisation flags, quantisation of the rows,
  the exchange itself (each triple is taken to mean what the comments say), overflow of the kernels' own 32-bit
  counters. What the kernels do for a slot without an expert, where they leave their tables.
* Expert ids at or above the number of experts, which the source does not check.
* Allocator: the CUDA path, Python reference counts and argument checks, failures of the `malloc` of the lists of
  pointers and sizes, wrap-around of 64-bit sizes, the environment variable for the chunk size. `ensure_context` is one
  status. A callback that raises is taken to have recorded nothing.
* Allocator runs: rollback calls, and unmapping and releasing an awake allocation, are taken to succeed. Handles and
  cells are fresh when they are handed out.
* HammingDistTopK: `SelectAndCast`, `TopKSmallest` and the matrix product, which are stubs or library calls;
  distances are arbitrary integers, so half-precision and NaN comparisons are not modelled. InferShape is compared
  for contiguous keys only. Signed overflow of the loop variables.
* CPU binding: parsing of command output and `/proc`, thread, memory and interrupt binding. A process's facts are
  inputs, and the logical NPU ids are free of duplicates, as the source's sorted set makes them. The pools left
  behind by a raised error are not specified. What lies on the next node is said for nodes numbered from 0 without gaps
  (`NodesInOrder`); looking up a missing node, which inserts it, is modelled for all hosts.
* Linter: regular expressions beyond the two used here, shell splitting, YAML loading, message texts and the sorting
  of differences. Text is ASCII; `int` of more than 4300 digits and characters that only some Unicode tables call
  digits or white space are outside the model. Environment blocks.
* `utils.py`: tensor types and leading batch dimensions (each matrix is laid out on its own), rounding errors of
  floating-point division in the sampler, `post_init_cudagraph_sizes`, an unset list of capture sizes.
