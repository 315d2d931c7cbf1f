# DOLPHIN in Dafny

DOLPHIN trains temporal graph networks on edge streams that do not fit on the device. The stream is cut
into large blocks. A worker process assembles the features and the node memory of the next block from
disk, from caches planned offline and from what the device already has, while the trainer runs the
batches of the current one. Nearly every fast path is meant to agree with a trivial one: look the row up
in one table. This project models these paths and proves that they do, or says exactly when.

Rows of features and of memory are values that nothing looks inside (`Tensors.Row`); the four memory
tensors (memory, mailbox, and their times) move together, so one row stands for all four. Tensor
operations (index assignment, masks, `isin`, `sort`, `unique`) are written out in `Tensors`.

| file | subject |
|---|---|
| `Common.dfy`, `Tensors.dfy` | shared arithmetic and results; tensor operations |
| `NodePlan.dfy` | offline plan of the node-memory cache: sent nodes, intervals, greedy selection, plan files |
| `NodeCache.dfy` | the online cache: slots, disk, `mem_update`, `mem_select` |
| `EdgeSlots.dfy` | offline slots for edge features (`gen_expire`) |
| `ValidEdges.dfy` | their online replay |
| `Sampler.dfy` | the parallel temporal sampler |
| `BatchSplit.dfy`, `BatchFiles.dfy` | the adaptive batch splitter and its files |
| `BatchStaleness.dfy` | how stale its batches really are |
| `Bcast.dfy` | broadcast offsets |
| `IncreMap.dfy` | the incremental row map |
| `BucketCache.dfy`, `BlockFeatures.dfy` | the bucket cache and the assembly of a block's feature table |
| `BlockPipeline.dfy`, `BlockProcesses.dfy` | trainer and worker: as a state machine with its invariant, and as objects with shared tensors |
| `PipelineRuns.dfy` | all runs of the pipeline: what the device shows, and the log of requests |
| `PipelineRefresh.dfy` | the store after an epoch; when all rows shown are right in all runs |
| `PipelineDrive.dfy` | the splitter's batches as what drives the pipeline |
| `PipelineEpoch.dfy` | the store after an epoch of these batches |
| `PipelineEdges.dfy` | the pipeline with edge features in shared slots |
| `PipelineDisk.dfy` | the pipeline with node memory in the planned cache and on disk |

Code that changes fields or arrays in place is a class or a method over arrays; its contract equates the
new state with a specification function, and the lemmas are about that function.

## Main results

- Every run of the pipeline, in every interleaving of trainer and worker, in both prefetch modes, with edge
  features or without: the device holds exactly the ids that the block needs, the memory that was
  written last, and for edges their own features (`PipelineRuns.RunRight`). A node's row is its own
  unless it is stale, that is, was fetched from a cache slot that should have been refreshed
  (`RowRightIff`); with edge features, or when no id leaves the cache, none is (`NodesRight`).
- At most one request is outstanding, each answer is for the block to be entered, and nobody waits in vain
  (`PipelineRuns.NeverStuck`). The requests of any two runs agree, asynchronous or not, as far as the
  runs have the same batches (`ModesAgree`).
- The splitter's list of batches drives the pipeline through a whole epoch whatever the worker does when:
  the trainer can always go on, every batch writes to the block that the trainer is in, and at the end
  every block has been entered and nothing is under way (`PipelineDrive.EpochGoesOn`, `EpochEnds`).
- With memory on disk the worker hands over the same rows (`PipelineDisk.DiskHandsOver`), and with edge
  features in shared slots the same edge tables (`PipelineEdges.EdgesHandedOver`).
- The planned memory cache refines a plain table over every run (`NodeCache.RunReads`), its allocator
  never runs short (`SlotsAdmissible`), and the planner makes plans with which that holds, from the greedy
  choice among all pairs of consecutive sends (`PlanMemory`).
- Slots for edge features are as few as possible (`EdgeSlots.GenExpire`, `PeakIsNeeded`) and their
  replay is faithful (`ValidEdges.ReplayFaithful`).
- In recent mode the sampler's blocks depend neither on threads, nor on lock order, nor on earlier calls
  (`Sampler.ParallelSampler.Sample`, `RecentDetermined`), and no edge from the future is sampled over
  any number of layers (`NoFutureLeak`, `PathDecreases`).

## What does not hold

Where the code misses what it is for, the model keeps the code, and these members say exactly when:

- The refresh of the node cache stands behind a test for a file of the edge cache. For data without edge
  features the cache is not refreshed when a new segment begins, and serves the rows of the old one:
  `BucketCache.NodeCacheSwitches` (if and only if) for one cache refresh, `StaleNodeCache` (an example);
  `PipelineRuns.RowRightIff` and `CachedNodeRight` for the rows on the device; and
  `PipelineRefresh.AllRunsRight`: all rows are right in all runs if and only if no block needs a stale
  one.
- The splitter's running count gives an edge from a new node to itself, a new loop, 0, although it raises the
  staleness by 1. The count of the next batch is its staleness if and only if no new loop stands behind the
  window where the count is below the threshold (`BatchStaleness.CountedIff`), and for all thresholds if and
  only if none stands behind the window at all (`CountedAlways`). The bound on the staleness holds if and
  only if the scan does not stop behind two new loops and padding leaves room for them (`BoundIff`), and for
  all thresholds if and only if the edges have none of three patterns (`BoundAlways`). Both are stated on the
  edges given to the splitter, and `SplitExact` carries them to every batch. `BatchSplit.LoopsUncounted` is a
  family of inputs where a batch exceeds the bound by any amount.
- A selection budget below 1 leaves the plan unfiltered: `NodePlan.LimitRespected`.
- The rows due with the request for the block after the last are never sent. After `refresh_memory` the
  store has the row last written to a node, in every run that ends, if and only if the node is not a
  root of the last block but one that the last block does not need, here called dropped:
  `PipelineRefresh.RefreshedIff` over all runs, and `PipelineEpoch.EpochKeepsIff` over the epochs of the
  splitter's batches, for any number of blocks and both prefetch modes. A dropped node is left with the row
  it had when the last stretch of blocks began that have it as a root (`PipelineRefresh.RowLeft`).
- An axis that is empty on both sides leaves the broadcast lists longer than the output:
  `Bcast.ListsComplete`.
- `find_indices` answers a value that is not there with the place of the largest entry
  (`Tensors.FindIndices`, `MissingIsLargest`); memory and features of an id that the table does not have are
  its last row (`BlockPipeline.MissingMail`, `BlockFeatures.MissingRow`).
- Splitting no edges reads the last of no batches, a pool of no workers is an error, and `gen_part`
  without edges reads a variable that was never set: `BatchSplit.AdaptiveSplit`,
  `BatchSplit.ProcessSplit`, `NodePlan.GenPart`.

## What is assumed

- `findSameIndex(a, b, t1, t2)` gives for each element its index in the other array, or -1; `torch.sort`
  gives a sorting permutation, `torch.unique` a strictly increasing array.
- The expiry kernel marks an entry of the temporal graph at most once, and only for edges that have
  arrived; every edge has an entry; edges are numbered by position (`EdgeSlots.GoodRun`).
- Rows of the temporal graph are sorted by time (built so in `gen_graph.py:84-95`); times are integers
  and compared strictly.
- Each saved feature file is the ordered gather of its ids; a block's positive ids include the end points
  of its edges; the shared tensors are long enough for every block.
- The order of nodes in the memory file gives different nodes different rows of it (`place` in
  `NodeCache.GoodSetup`).
- Edges that a block samples are in use in that block, as the expiry kernel counts it
  (`PipelineEdges.SlotsFor`).
- A batch updates the memory of end points of its own edges.
- Node and edge index change at the same blocks, where a segment starts; whether the caches are refreshed
  there follows from that and from whether there are edge features.

## Model

| member | source | states |
|---|---|---|
| Tensors.FindIndices | utils.py:98-106 | the place returned for a value holds that value if and only if the value occurs at all |
| Tensors.MissingIsLargest | utils.py:98-106 | a value that does not occur is sent to a place of a largest value |
| NodePlan.GenPart | preprocess/node_memory.py:40-82 | every block sends the roots that the next does not have, the last block all of its own; no edges is an error |
| NodePlan.RootMembers | preprocess/node_memory.py:52-66 | the roots of a block are exactly the end points of its edges |
| NodePlan.SentBlockMembers | preprocess/node_memory.py:74-81 | which nodes a block sends, member by member |
| NodePlan.GenIntervals | preprocess/node_memory.py:89-114 | one pass finds exactly the pairs of consecutive sends of a node, each once |
| NodePlan.TransformIntervals | preprocess/node_memory.py:116-125 | the same intervals, none heavier than one before it |
| NodePlan.SelectIntervalID | preprocess/node_memory.py:127-139 | the budget array accepts exactly the intervals that fit beside those accepted earlier |
| NodePlan.GreedyFeasible | preprocess/node_memory.py:130-136 | at every time, and after every acceptance, no more intervals are selected than the threshold |
| NodePlan.GreedyMaximal | preprocess/node_memory.py:127-139 | a rejected interval contains a time saturated in the final selection, and saturated by intervals at least as heavy |
| NodePlan.SortByTime | preprocess/node_memory.py:154-159 | the same intervals, in order of their start, covering every time as often as before |
| NodePlan.DataPlacement | preprocess/node_memory.py:162-186 | the plan holds the greedy choice within the limit; with no budget it holds every interval |
| NodePlan.LimitRespected | preprocess/node_memory.py:175-184 | the plan keeps within its limit if and only if the limit is at least 1 or no node is sent twice |
| NodePlan.BatchPlan | preprocess/node_memory.py:191-193 | the nodes held after a block are as many as intervals cover it, and are the nodes of those intervals |
| NodePlan.NeverOverlap | preprocess/node_memory.py:89-114 | two intervals of one node never overlap |
| NodePlan.PlanDistinct | preprocess/node_memory.py:191-193 | no node is counted twice at a time |
| NodePlan.SimpleMaxNum | preprocess/node_memory.py:263-266 | the least slot count that suffices at every block |
| NodePlan.GenSimple | preprocess/node_memory.py:213-257 | the flat files with their pointers stand for each block's rows to cache, rows to flush and nodes to release |
| NodePlan.RowsDivided | preprocess/node_memory.py:222-225 | a row is cached if and only if an interval of its node starts there, and flushed if and only if it is a row and not cached |
| NodePlan.StartsDistinct | preprocess/node_memory.py:217-219 | no block admits or releases a node twice |
| NodeCache.PlanMemory | preprocess/node_memory.py:85-266 | for any edges and limit, the set-up has the sent blocks; distinct intervals, each two consecutive sends of a node: all such pairs without a budget, else the greedy choice among all, where each pair left out contains a time covered up to the limit; a slot count that is the coverage at some block; and files that stand for them, as the online side needs |
| NodeCache.ReleaseKeeps | pre_fetch.py:246-248 | releasing nodes that hold slots frees exactly their slots, and never slot 0 |
| NodeCache.EnoughFree | pre_fetch.py:251-251 | while held and new nodes fit into the slot count, each new one gets a slot, and none gets the spare one |
| NodeCache.LeftOverIsHigher | pre_fetch.py:251-251 | the slots taken are the lowest free ones: one left over is above them all |
| NodeCache.AdmitKeeps | pre_fetch.py:252-255 | nodes that are admitted hold slots of their own afterwards, beside all that held one |
| NodeCache.ReleasesAreResent | preprocess/node_memory.py:217-219 | a block releases exactly the nodes that hold a slot and that it sends again |
| NodeCache.HeldSetStep | preprocess/node_memory.py:191-193 | from block to block, the held nodes change by exactly the releases and the starts |
| NodeCache.HeldCount | preprocess/node_memory.py:191-201 | as many nodes hold a slot after a block as intervals cover it |
| NodeCache.CoverageBound | pre_fetch.py:243-255 | after the releases, held and new nodes are disjoint and together those the plan counted: used plus new slots equal the plan's coverage, and fit |
| NodeCache.SlotsAdmissible | pre_fetch.py:328-332 | in every coherent state the lowest free slots are enough and lie in `1..simple_max_num` |
| NodeCache.UpdateCoherent | pre_fetch.py:218-270 | one `mem_update` writes each of its nodes and nothing else, as reads will see it, and keeps the slots in order |
| NodeCache.UpdateTouches | pre_fetch.py:234-270 | disk rows change only for nodes of the block that get no slot, slots only for nodes that get one |
| NodeCache.RunCoherent | pre_fetch.py:218-270 | every run from a reset store stays coherent with one plain table, and no update fails |
| NodeCache.RefIsLastWrite | pre_fetch.py:218-270 | that table holds the row each node was sent with last, or zero |
| NodeCache.SelectedRowsLookUp | pre_fetch.py:157-199 | each selected row comes from the slot, the file or zero, as its node's flags say |
| NodeCache.SelectedRowsAreRef | pre_fetch.py:157-199 | in a coherent state a read returns the plain table's rows, for any list of nodes |
| NodeCache.RunReads | pre_fetch.py:157-199 | in every run every read returns the rows written last, whatever the memory file held before |
| NodeCache.NodeMemory.constructor | pre_fetch.py:294-335 | the fresh cache reads zero everywhere |
| NodeCache.NodeMemory.ResetMemory | pre_fetch.py:353-363 | after a reset every node reads zero, though the file keeps its rows |
| NodeCache.NodeMemory.Write | pre_fetch.py:234-270 | the in-place steps reach exactly the specified state |
| NodeCache.NodeMemory.MemUpdate | pre_fetch.py:218-270 | one call writes its rows into the plain table and keeps the object valid |
| NodeCache.NodeMemory.MemSelect | pre_fetch.py:157-199 | the selected rows, written over the marked rows of the base, are the plain table's |
| EdgeSlots.PickSlots | preprocess/memory_preprocess.py:124-150 | the slots taken are distinct: just-freed ones first, then older free ones, both in order, then the next new ones; and what stays free |
| EdgeSlots.ArrivesIn | preprocess/memory_preprocess.py:84-100 | an edge arrives with block `b` if and only if its number divided by the block size is `b` |
| EdgeSlots.SlotPartition | preprocess/memory_preprocess.py:107-178 | every slot below the mark is in use, just freed or on the free list, and only one of these |
| EdgeSlots.AllocateKeeps | preprocess/memory_preprocess.py:100-153 | giving slots to new edges keeps owners, free list and counters in order |
| EdgeSlots.ExpireKeeps | preprocess/memory_preprocess.py:164-178 | letting edges go keeps them too |
| EdgeSlots.PlaceFirst | preprocess/memory_preprocess.py:107-110 | the first block fills the map from the start |
| EdgeSlots.PlaceLater | preprocess/memory_preprocess.py:111-153 | later blocks take just-freed slots first, then older free ones, then new ones |
| EdgeSlots.PeakIsNeeded | preprocess/memory_preprocess.py:174-184 | any assignment that keeps edges in use apart needs as many slots as edges are ever in use at once |
| EdgeSlots.GenExpire | preprocess/memory_preprocess.py:58-184 | edges in use together never share a slot, and the number of slots is that peak |
| ValidEdges.SlotNotTaken | preprocess/memory_preprocess.py:107-153 | no later edge takes the slot of an edge in use |
| ValidEdges.ReplayFaithful | pre_fetch.py:434-451 | after replaying the blocks up to `b`, every edge in use in block `b` reads its own feature, below `max_valid_num` |
| ValidEdges.ValidStore.constructor | pre_fetch.py:422-427 | the store starts with the first block replayed |
| ValidEdges.ValidStore.ResetValidEdge | pre_fetch.py:429-432 | a reset brings it back there |
| ValidEdges.ValidStore.UpdateValidEdge | pre_fetch.py:434-446 | one call replays the next block |
| ValidEdges.ValidStore.GetEfValid | pre_fetch.py:448-451 | edges in use in the block replayed last read their own features |
| Sampler.AdvancePtr | sampler/sampler_core.cpp:116-131 | the locked scan moves the pointer to the larger of where it is and the last entry before the time |
| Sampler.RunStepsIsMax | sampler/sampler_core.cpp:109-134 | after any order of steps, a pointer is the largest of its start and its roots' targets |
| Sampler.Confluent | sampler/sampler_core.cpp:109-134 | every interleaving of the locked updates ends in the same table |
| Sampler.LatestMeaning | sampler/sampler_core.cpp:304-319 | the specification of recent mode: the latest past entries in descending order, none later left out |
| Sampler.UpToMeaning | sampler/sampler_core.cpp:304-319 | what a search from any end pointer takes: the latest past entries at or before it, descending, and as many as wanted unless there are no more |
| Sampler.PickedLatest | sampler/sampler_core.cpp:304-319 | in recent mode, and in random mode with fewer candidates than wanted, all latest past entries are taken |
| Sampler.PickRecent | sampler/sampler_core.cpp:304-319 | the latest past entries at or before the end pointer, whatever the pointer is |
| Sampler.PickRandom | sampler/sampler_core.cpp:321-333 | for any values drawn, the past entries among exactly `neighs` draws, in the order of the draws |
| Sampler.PickedDrawn | sampler/sampler_core.cpp:321-333 | with candidates enough, an entry is taken if and only if it is past and one of the `neighs` draws points at it |
| Sampler.RandomOrder | sampler/sampler_core.cpp:321-333 | each draw that is past adds its entry behind those drawn before |
| Sampler.DrawReaches | sampler/sampler_core.cpp:326-326 | which value draws which entry: each between the start of the row and the end pointer, that one included, going round |
| Sampler.PassJoin | sampler/sampler_core.cpp:180-197 | the edge lists of neighbouring stretches of roots, joined, are that of one pass |
| Sampler.CombineCoo | sampler/sampler_core.cpp:160-206 | stitching by prefix sums gives the block of the joined edge list |
| Sampler.BlockMeaning | sampler/sampler_core.cpp:136-205 | each edge names its root by global index, its own node's place as column, and there its neighbour; the roots stand in front with their times and time difference 0; the lengths count roots and edges |
| Sampler.ParallelSampler.constructor | sampler/sampler_core.cpp:71-96 | all pointers start at their rows |
| Sampler.ParallelSampler.Reset | sampler/sampler_core.cpp:98-107 | all pointers are back there |
| Sampler.ParallelSampler.UpdateTsPtr | sampler/sampler_core.cpp:109-134 | the table after the locked steps in the given order |
| Sampler.ParallelSampler.PickNeighbors | sampler/sampler_core.cpp:270-333 | one root's sampled entries: the latest past ones up to where the search starts, or the past ones among the draws |
| Sampler.ParallelSampler.SampleLayer | sampler/sampler_core.cpp:208-349 | for any number of threads, the block of one sequential pass, over what is taken for each root; in recent mode the latest past entries |
| Sampler.ParallelSampler.Sample | sampler/sampler_core.cpp:351-373 | the layers chain, each over what is taken for its roots; the pointers move from layer to layer as the locked steps say, and the searches start there, or without pointers at the last entry not after the root; in recent mode each layer holds the latest past entries of its roots, whatever the schedule |
| Sampler.NextLayer | sampler/sampler_core.cpp:214-221 | the roots of the next layer are those of this one, and behind them the sampled neighbours with the edge's time, or the root's if times are propagated |
| Sampler.RecentDetermined | sampler/sampler_core.cpp:351-373 | two runs in recent mode, with any threads, orders and histories, return the same blocks |
| Sampler.ReachedMeaning | sampler/sampler_core.cpp:214-221 | a root of any layer is a seed at its own place, or the neighbour of the sampled edge it is said to be reached by, with the seed of that edge's root |
| Sampler.RootTime | sampler/sampler_core.cpp:144-148 | a root's time is at most its seed's, and equal to it when times are propagated |
| Sampler.NoFutureLeak | sampler/sampler_core.cpp:214-221 | every sampled edge of every layer is earlier than the seed it is reached from |
| Sampler.PathDecreases | sampler/sampler_core.cpp:304-333 | without propagated times, edge times strictly decrease along every sampled path |
| Bcast.UseBcast | dolphin_dgl/src/bcast.cc:17-27 | broadcasting is used if and only if the operator is no copy and the shapes differ behind axis 0 |
| Bcast.CalcBcastOff | dolphin_dgl/src/bcast.cc:37-87 | lengths, reduce size and both offset lists, for all shapes; without broadcasting the output is as long as the left operand, as the right one for `copy_rhs`, and as the left one without its last axis for a dot product |
| Bcast.OverAxes | dolphin_dgl/src/bcast.cc:48-78 | the loop over the axes fills both lists with the offsets of clamped indices |
| Bcast.OperandsPadded | dolphin_dgl/src/bcast.cc:48-60 | the axes gone over, of either operand: sizes of 1 up to the longer shape, then its own behind axis 0, for a dot product without the last |
| Bcast.OffsetIsRepeated | dolphin_dgl/src/bcast.cc:62-73 | for compatible shapes an offset is that of the element repeated to the output position |
| Bcast.OffsetInBounds | dolphin_dgl/src/bcast.cc:62-73 | an offset lies in its operand if and only if the operand has no empty axis |
| Bcast.ListsComplete | dolphin_dgl/src/bcast.cc:56-78 | the lists are as long as the output if and only if the output has no empty axis |
| Bcast.BroadcastOffsets | dolphin_dgl/src/bcast.cc:37-78 | for compatible shapes: one entry per output position on both sides, the repeated element's, in bounds |
| Bcast.DotUnits | dolphin_dgl/src/bcast.cc:51-54 | an offset counts in units of `reduce_size` |
| Bcast.ElementInBounds | dolphin_dgl/src/bcast.cc:39-54 | every element that an offset leads to lies in the whole operand |
| Bcast.NoBroadcastAgrees | dolphin_dgl/src/bcast.cc:79-85 | where broadcasting is off, the lists would have been the identity |
| Bcast.UnflattenInverts | dolphin_dgl/src/bcast.cc:62-73 | positions and indices correspond one to one |
| BatchSplit.CountStep | eid_analyze/eid_analyze_parallel.py:21-26 | the running count follows the true staleness except for new loops |
| BatchSplit.ExtendCounts | eid_analyze/eid_analyze_parallel.py:65-84 | what the extension scan counts is what the lengthened batch counts, at most the threshold unless the window was over it |
| BatchSplit.ExtendLeaves | eid_analyze/eid_analyze_parallel.py:71-76 | a scan that ends below the threshold leaves only edges that bring in no node |
| BatchSplit.RemovedIsRest | eid_analyze/eid_analyze_parallel.py:86-91 | deleting from the last index to the first leaves the edges that were not taken, in order |
| BatchSplit.TakenParts | eid_analyze/eid_analyze_parallel.py:53-101 | batch and remaining edges are together the edges before, each once, and fewer remain |
| BatchSplit.TakenStaleness | eid_analyze/eid_analyze_parallel.py:65-99 | the count reaches the threshold unless no edge remains, and is at most the larger of the window's staleness and the threshold plus 1 |
| BatchSplit.TakeBatch | eid_analyze/eid_analyze_parallel.py:53-101 | the loops take exactly the specified batch out of the list |
| BatchSplit.FirstWindow | eid_analyze/eid_analyze_parallel.py:56-64 | a batch starts with the first 2000 edges, or with all if there are fewer, and ends there if these reach the threshold |
| BatchSplit.SmallSplit | eid_analyze/eid_analyze_parallel.py:53-64 | up to 2000 edges are one batch |
| BatchStaleness.TakenPlaces | eid_analyze/eid_analyze_parallel.py:53-99 | which edges a batch takes and which it leaves, by their places: the window, then what brings in a node until the threshold is counted, then padding from the front |
| BatchSplit.AdaptiveSplit | eid_analyze/eid_analyze_parallel.py:49-106 | terminates with the specified batches; no edges is an index error |
| BatchSplit.SplitPermutes | eid_analyze/eid_analyze_parallel.py:49-106 | the batches are not empty and together are a permutation of the edges |
| BatchSplit.SplitStaleness | eid_analyze/eid_analyze_parallel.py:49-106 | both bounds for every batch, in terms of the count |
| BatchSplit.BatchExact | eid_analyze/eid_analyze_parallel.py:15-26 | the lower bound holds for the true staleness, the upper one too if no edge is a loop |
| BatchStaleness.BatchStops | eid_analyze/eid_analyze_parallel.py:65-84 | where the scan stops, in terms of the edges given: the batch counts the threshold, and its new loops are those before the stop |
| BatchStaleness.BatchThrough | eid_analyze/eid_analyze_parallel.py:65-99 | what a batch counts whose scan does not stop, and that all new loops are in it |
| BatchStaleness.CountedIff | eid_analyze/eid_analyze_parallel.py:53-101 | for every list and threshold: the count is the staleness if and only if no new loop stands behind the window where the count is below the threshold |
| BatchStaleness.CountedAlways | eid_analyze/eid_analyze_parallel.py:53-101 | for every threshold if and only if no new loop stands behind the window |
| BatchStaleness.BoundIff | eid_analyze/eid_analyze_parallel.py:53-101 | for every list and threshold: the staleness is at most the larger of the window's and the threshold plus 1 if and only if the stated case does not occur |
| BatchStaleness.BoundAlways | eid_analyze/eid_analyze_parallel.py:53-101 | for every threshold if and only if there are not three new loops behind the window, nor two before an edge with one known end point, nor one with some edge with two |
| BatchStaleness.SplitExact | eid_analyze/eid_analyze_parallel.py:49-106 | both conditions for every batch of a split, on the edges that remain when its turn comes |
| BatchSplit.LoopsUncounted | eid_analyze/eid_analyze_parallel.py:21-26 | a batch whose count is 0 and whose staleness is any number |
| BatchSplit.SplitRanges | eid_analyze/eid_analyze_parallel.py:128-145 | the range is cut at the multiples of the block size, one job per piece |
| BatchSplit.RangesTile | eid_analyze/eid_analyze_parallel.py:133-145 | from position 0, job `i` is exactly block `i`, and the last one ends at the end |
| BatchSplit.RangesCut | eid_analyze/eid_analyze_parallel.py:133-145 | from any position, the jobs follow on each other, and each lies within one block |
| BatchSplit.ProcessSplit | eid_analyze/eid_analyze_parallel.py:128-152 | the blocks' batches in block order; an empty pool is an error |
| BatchSplit.TriggersAscend | feat_buffer.py:603-603 | over the whole list, each block is switched to once, in ascending order |
| BatchSplit.SplitDrivesBlocks | feat_buffer.py:601-703 | at every batch, the number of switches so far less one is the block of each of its edges |
| BatchFiles.WriteBatches | eid_analyze/eid_analyze_parallel.py:154-160 | the bytes of every batch, length first |
| BatchFiles.ReadBatches | utils.py:684-699 | what a file of any contents reads as, broken ones included |
| BatchFiles.FileStarts | eid_analyze/eid_analyze_parallel.py:154-160 | where the length, the ids and the next batch stand in a file |
| BatchFiles.DecodedAt | utils.py:693-694 | id `i` of a batch comes from its bytes `4 * i` to `4 * i + 3` |
| BatchFiles.LowestFirst | eid_analyze/eid_analyze_parallel.py:158-160 | the lowest byte comes first, in what is written and in what is read |
| BatchFiles.BrokenLength | utils.py:688-691 | after any batches, a file that ends inside a length is an error |
| BatchFiles.BrokenBatch | utils.py:693-695 | one that ends inside a batch gives the ids that are there, or an error if it ends inside an id |
| BatchFiles.EmptyBatch | utils.py:693-697 | a length that is not positive reads as an empty batch |
| BatchFiles.BytesRoundTrip | eid_analyze/eid_analyze_parallel.py:158-160 | every 32-bit integer survives its four bytes |
| BatchFiles.RoundTrip | eid_analyze/eid_analyze_parallel.py:154-172 | reading what was written gives back every list of batches, with empty ones, whatever follows in the file |
| IncreMap.StepHolds | feat_buffer.py:1707-1729 | after a request the rows hold exactly the requested ids, once each |
| IncreMap.StepKeeps | feat_buffer.py:1716-1719 | ids that stay wanted do not move |
| IncreMap.StepReturns | feat_buffer.py:1717-1729 | the returned rows hold exactly the new ids, ascending |
| IncreMap.StepLowest | feat_buffer.py:1720-1727 | the rows taken are the lowest that are free |
| IncreMap.StepLength | feat_buffer.py:1721-1725 | the table grows to the larger of its length and the request, no further |
| IncreMap.RequestsHeld | feat_buffer.py:1775-1780 | over any sequence of requests: the last one is held, and the length is that of the largest, at least 1 |
| IncreMap.FirstRequest | feat_buffer.py:1775-1780 | the first request returns all its ids, ascending, for the first rows |
| IncreMap.EveryRowLoaded | feat_buffer.py:1775-1780 | over any sequence of requests: for every row that holds an id, some request returned that id for that row, and the row has held it since |
| IncreMap.RowMap.IncreStrategy | feat_buffer.py:1707-1729 | the steps in place reach exactly that table |
| BucketCache.EquallyMany | feat_buffer.py:1274-1276 | the two masks select equally many entries |
| BucketCache.RefreshIsNew | feat_buffer.py:1274-1290 | the new index holds exactly the newly chosen ids, once each, and survivors keep their slots |
| BucketCache.RefreshOrder | feat_buffer.py:1274-1276 | the incoming ids fill the changed slots from the front, in the order they were chosen |
| BucketCache.RefreshCoherent | pre_fetch.py:505-519 | writing the incoming rows into the changed slots makes the cache hold the new index |
| BucketCache.Cache.Switch | pre_fetch.py:505-519 | the refresh in place keeps every slot at the row of its id |
| BucketCache.CachedRowsRight | feat_buffer.py:1309-1330 | through the planned slots a coherent cache gives the cached ids' rows |
| BucketCache.NodeCacheSwitches | pre_fetch.py:505-519 | the node cache is right in a new segment if and only if there are edge features or no cached id changes |
| BucketCache.StaleNodeCache | pre_fetch.py:505-505 | an example where it is not |
| BlockFeatures.LoadRight | pre_fetch.py:651-660 | reading in file order and writing back by place gives each edge its own feature |
| BlockFeatures.PosRowShown | pre_fetch.py:756-763 | a positive row that the trainer need not fill is the file's own row or that of the cache slot, whatever the cache holds |
| BlockFeatures.MarkedForTrainer | pre_fetch.py:620-682 | the rows marked for the trainer are exactly those of the ids it has to fill in |
| BlockFeatures.MissingRow | feat_buffer.py:420-434 | an id that the table does not have gets its last row |
| BlockFeatures.BlockIds | pre_fetch.py:603-626 | the sorted ids are the positive and the negative ones, each once |
| BlockFeatures.BlockShows | pre_fetch.py:489-792 | for any cache contents: each id of the table shows the row of the block before, of its cache slot, or its own, as the plan says |
| BlockFeatures.ShownRight | pre_fetch.py:489-792 | with a coherent cache and a right table before, that is each id's own row |
| BlockFeatures.BlockRefines | pre_fetch.py:489-792 | so the assembly from four sources is one direct gather at those ids |
| BlockFeatures.FirstTableRight | feat_buffer.py:863-911 | the first block's table is that gather too |
| BlockFeatures.SharedTable.Publish | pre_fetch.py:85-111 | what is handed over lies in the shared tensors up to the shared lengths |
| BlockFeatures.SharedTable.Collect | feat_buffer.py:548-560 | the trainer gets it with the marked rows from its own table, whatever lies behind the lengths |
| BlockPipeline.MemRowsRight | pre_fetch.py:695-709 | memory rows of nodes that the trainer does not have come from the store |
| BlockPipeline.MemRowsLeft | pre_fetch.py:700-709 | with incremental data the rows of nodes that the trainer has are not read |
| BlockPipeline.SameNodes | pre_fetch.py:692-693 | the two masks mark the same nodes in the same order |
| BlockPipeline.CarryRight | feat_buffer.py:575-581 | rows of the other nodes come from the trainer, each to its own node |
| BlockPipeline.UpdateRight | feat_buffer.py:393-401 | writing through the table is writing to the nodes |
| BlockPipeline.MailsRight | feat_buffer.py:340-349 | reading through the table is reading the nodes |
| BlockPipeline.MissingMail | feat_buffer.py:340-349 | a node that the table does not have gets its last row |
| BlockPipeline.TrainKeeps | train.py:537-713 | a batch of the current block keeps the invariant, with a request or an answer under way |
| BlockPipeline.CallKeeps | feat_buffer.py:664-669 | a synchronous request keeps it |
| BlockPipeline.WorkKeeps | pre_fetch.py:489-819 | the worker's step keeps it |
| BlockPipeline.FlushedStore | pre_fetch.py:576-587 | with the rows sent, the store is up to date but for the roots of the current block |
| BlockPipeline.SwitchKeeps | feat_buffer.py:603-703 | the block switch keeps it |
| BlockPipeline.StartOk | feat_buffer.py:643-652 | it holds after the first block's load and analysis |
| BlockPipeline.IndexGood | feat_buffer.py:1262-1292 | every index of the plan names as many ids as the first, each once |
| BlockPipeline.RefreshRight | pre_fetch.py:505-519 | the cache holds the rows of the block's index; without edge features, those of the first index for ever |
| BlockPipeline.PrepareOk | pre_fetch.py:489-792 | what the worker hands over makes the table that the block is said to show |
| PipelineRuns.SeenIff | pre_fetch.py:505-792 | the row shown for an id is its own if it is not stale, and if rows tell ids apart only then |
| PipelineRuns.RunRight | feat_buffer.py:530-703 | in every state of every run the device has exactly the block's ids, the memory written last, own rows for edges, and for nodes the rows shown |
| PipelineRuns.RowRightIff | feat_buffer.py:548-564 | in every run, a node's row on the device is its own if it is not stale, and for rows that tell nodes apart only then |
| PipelineRuns.NodesRight | feat_buffer.py:548-564 | with edge features, or with no id leaving the cache, all node rows are their own in every run |
| PipelineRuns.CachedNodeRight | pre_fetch.py:505-519 | without edge features, the row of a cached node that the block before lacks is right if and only if the first index names it for its slot |
| PipelineRuns.BatchReads | feat_buffer.py:340-434 | what a batch reads are the features and the memory written last |
| PipelineRuns.NeverStuck | feat_buffer.py:656-703 | at most one request is outstanding, for the block to be entered; a next step exists; none is left at the end |
| PipelineRuns.RunLog | feat_buffer.py:682-698 | each request of a run is the one due for its block with what the batches of the blocks before have written |
| PipelineRuns.RequestCount | feat_buffer.py:656-698 | each block but the first is asked for once, in order |
| PipelineRuns.ModesAgree | feat_buffer.py:656-698 | the requests number `k` of any two runs, in either mode and any interleaving, agree if the first `k` blocks have the same batches |
| PipelineRefresh.QuietRuns | feat_buffer.py:603-703 | every block can be reached without writing anything |
| PipelineRefresh.RefreshMemory | feat_buffer.py:820-831 | at the end of any run the refreshed store has all rows but those of dropped nodes |
| PipelineRefresh.LosingRun | feat_buffer.py:682-703 | a run, in either mode and with any number of blocks, that loses the row of a dropped node |
| PipelineRefresh.RowLeft | feat_buffer.py:820-831 | which row every node has in the refreshed store, in any run that ends: a dropped one what it had when its last stretch of blocks began |
| PipelineRefresh.RowLeftByBatches | feat_buffer.py:820-831 | the same in terms of what the batches wrote |
| PipelineRefresh.RefreshedIff | feat_buffer.py:820-831 | the refreshed store has the row last written to a node in every run that ends, if and only if the node is not dropped |
| PipelineRefresh.AllRunsRight | pre_fetch.py:505-519 | all node rows are right in all runs if and only if no block needs a stale one |
| PipelineDrive.RootBlockAt | feat_buffer.py:606-621 | the trainer's roots of a block are the planner's |
| PipelineDrive.SameCount | feat_buffer.py:606-621 | there are as many blocks as the splitter cuts |
| PipelineDrive.BatchFitsBlock | feat_buffer.py:603-603 | a batch's end points are roots of the block that the batches up to it switch to |
| PipelineDrive.Counters | feat_buffer.py:603-703 | the trainer's block counter is one more than its switches |
| PipelineDrive.EpochGoesOn | train.py:521-713 | wherever the trainer is in the epoch's list of actions, the next one can happen, at once or after the worker's answer |
| PipelineDrive.EpochEnds | train.py:521-713 | after the whole list every block has been entered and both channels are empty |
| PipelineDrive.EpochRuns | train.py:521-713 | there is a run that does all of it |
| PipelineEpoch.EpochRefreshed | train.py:521-713 | after an epoch the refreshed store follows from the batches alone, whatever the interleaving |
| PipelineEpoch.EpochLoses | train.py:521-713 | an epoch of the splitter's batches that loses the row of a dropped node |
| PipelineEpoch.EpochKeepsIff | feat_buffer.py:820-831 | whatever the batches write, the refreshed store has a node's last row after the epoch, if and only if the node is not dropped |
| PipelineEdges.RunReplays | pre_fetch.py:434-446 | in every run exactly the blocks prepared have been replayed, in order, and no replay fails |
| PipelineEdges.InUseReads | pre_fetch.py:448-451 | edges in use in the block prepared last read their own features |
| PipelineEdges.SameFetch | pre_fetch.py:749-782 | reading negative edges through slots differs from reading them from the features only in rows that the trainer replaces |
| PipelineEdges.EdgesHandedOver | pre_fetch.py:489-792 | in every run, what the worker hands over with slots makes the edge table of the trainer's next block, with own features |
| PipelineEdges.FirstEdgesRight | feat_buffer.py:893-911 | so does the first block's load |
| PipelineDisk.FlushIsPlanned | feat_buffer.py:614-625 | the nodes sent at a switch are those of the offline plan |
| PipelineDisk.DiskRun | pre_fetch.py:218-270 | in every run the memory on disk stands for the worker's plain table, and no update fails |
| PipelineDisk.DiskHandsOver | pre_fetch.py:692-709 | what is read from slots and disk for the next block is what the plain table gives |
| BlockProcesses.SharedMemory.Collect | feat_buffer.py:566-586 | the carried memory, out of the shared tensors |
| BlockProcesses.PreFetcher.PreFetch | pre_fetch.py:489-792 | the worker's fields and the shared tensors afterwards are those of the state machine's step |
| BlockProcesses.FeatBuffer.constructor | feat_buffer.py:643-652 | the trainer's fields are those of the starting state |
| BlockProcesses.FeatBuffer.UpdateMemory | feat_buffer.py:393-401 | the trainer's fields after a batch |
| BlockProcesses.FeatBuffer.PrefetchAfter | feat_buffer.py:530-586 | the trainer's fields after taking over an answer |
| BlockProcesses.FeatBuffer.RunBatch | feat_buffer.py:603-703 | the trainer's fields and the request sent at a block switch |

## Left out

- CUDA kernels (neighbour sampling, expiry, `findSameIndex`, `bincount`): not visible; used by the contracts above.
- `stream_extract`, file layout, multi-window extraction and the early flush of `gen_part_stream`: each saved file counts as the ordered gather of its ids.
- Which ids the bucket cache chooses: only that the choice is as large as the cache; edge hotness is never counted, so nothing is claimed about hits.
- `use_bucket` off: the block file then holds all positive rows, which is the case without cached ids and without a block before.
- Sampler windows and several histories, the 1e-7 margin of its float comparisons, the float32 chunk size beyond 2 to the 24 roots, and the distribution of `rand_r`: random mode is proved for any values that it returns.
- Bcast.CalcBcastOff: does not model overflow of the C `int` products; a dot product over an empty last axis divides by zero and is excluded when no broadcasting is used.
- BatchFiles.ReadBatches: does not model a length of 2 to the 29 or more, whose byte count overflows a 32-bit product.
- BatchSplit.ProcessSplit: models the pool as the ordered map that it returns, not the processes.
- The threshold that `process` computes from windows of 2000 edges: the splitter is proved for every threshold.
- PipelineRefresh.RefreshMemory: models the refresh with memory in a plain table; with memory on disk `update_index` returns without writing.
- Without edge features the model passes an empty edge table; the code calls `.cpu()` on the missing one, and fails, in synchronous mode or with more than one sampling layer (feat_buffer.py:667, 689).
- `model_eval` and the test modes of `run_batch`, resizing of shared tensors, `bucket_optimal`, `gen_part`, `gen_part_stream_bucket_cache`: unfinished or different paths.
- `BlockProcesses` has the worker with memory in a plain table; with memory on disk it is modelled by `PipelineDisk` over runs and by the class in `NodeCache`.
- Mail times: `mail` is interleaved while `mail_ts` is not (memorys.py:165-167), so no property is stated; an update only touches end points of its edges.
- Neural layers, the training loop, plotting, timing, pickling and the rest of the DGL tree.
