# AiSAQ index machinery, modelled and proved in Dafny

AiSAQ keeps a DiskANN graph index in memory while it is built and changed, and on disk, PQ vectors included, while it is
queried. This project models five connected parts of it and proves what they promise.

1. **The dynamic index** (`index.cpp`). Slots move between empty, tagged, deleted and being consolidated; consolidation rewires
   the graph around deleted points; compaction renames every location; frozen points move next to the live ones for saving and
   back. `DynamicIndex.Index` is one class with all of that state. Its `Valid()` says that slots, tag maps, lists and vectors
   agree and that no list leads to a location without a point; every operation keeps it.
2. **Search and pruning** (`index.cpp`, `neighbor.h`). A bounded sorted queue with a cursor drives a best-first search; pruning
   is a multi-round occlusion loop. Both are proved against a specification: the fixed point of the search, and the only list
   that is a pruning.
3. **The PQ reader** (`aisaq_pq_reader.cpp`, asynchronous engine). Buffers move between a stack, a page cache in order of use,
   and running reads; requests for the same sectors are chained; reads complete in any order.
4. **Rearrangement and the disk index** (`aisaq_utils.cpp`, `disk_utils.cpp`). Vectors are numbered by their distance in hops,
   nodes are written under the new ids with the PQ vectors of their neighbours, and both are found again.
5. **Files** (`in_mem_graph_store.cpp`, `cached_io.h`, shard merging). Round trips and refinements of plain files.

Distances are reals given by a fixed function; files are sequences of bytes or 32-bit words; the order of a hash set, a shuffle,
the completion of reads and the slot a reservation picks are arbitrary; interleavings of threads are sequences of the steps made
under a lock. `dafny verify dfyconfig.toml` checks everything.

## How the modules build on each other

- `collections`, `arithmetic`, `bytes`: sequences as sets, division bounds, 32-bit words.
- `neighbor_queue` → `graph_search` → `search_answers` → `search_renaming`: the queue, the search, what it reports, and why a
  monotone renaming of locations does not change it.
- `occlusion` → `pruning` → `linking`: the pruning loop, the lists it makes, linking by one thread and by many.
- `index_slots`, `consolidation`, `compaction`, `slot_compaction`, `reposition` → `index_state` → `dynamic_index`: the parts of
  the index, its state as a value, and the class that joins them; `concurrent_index`: the same slots and lists under many
  threads; `insertion_runs`: the sequential insertion as one of its runs.
- `pq_layout`, `pq_pool`, `page_recency`, `pq_batch`, `pq_submit`, `pq_wait`, `pq_reader` → `pq_reader_aio` → `pq_file`: geometry,
  buffers, which pages were used last, the two passes of a submission, completion, the invariant, the reader as a class, and
  reading from real files.
- `rearrange`, `node_sizing`, `disk_node`, `disk_layout`, `pq_file_writer` → `disk_index`: numbering, sizes, one node, all nodes,
  the PQ file with pages, and everything together.
- `graph_file`, `cached_io`, `shard_merge`: the other files.

## Where the code does less than it suggests

- **The compacted flag.** Insertion never clears it. `IndexSlots.CompactedFlagCanLie` is a run after which the flag is up while
  the points do not fill the first slots. On a compact index an insertion is certain to leave the flag right exactly when the slot
  behind the live points is the only empty one (`IndexSlots.CompactedFlagSafe`). Compaction believes the flag, and saving writes
  the first slots: `DynamicIndex.Index.Save` says exactly when every point gets into the files, and
  `DynamicIndex.SaveAfterOneInsertion` is the shortest run in which one does not.
- **Assertions while moving.** The frozen points are moved to slots asserted to hold no lists. The model does what happens
  either way and reports whether the assertions held; in the case above they may not.
- **Asking for no neighbours.** The reporting loops compare after they have written, so K = 0 reports everything
  (`SearchAnswers.SearchIsExact`, `SearchAnswers.TagSearchIsExact`); from 1 on nothing is reported beyond K
  (`SearchAnswers.NeverMoreThanAsked`).
- **Deletions make no room.** A deleted point occupies its slot until a consolidation has ended (`IndexSlots.CapacityLaw`).
- **Flat PQ files on large blocks.** The size of a read buffer does not depend on the block size, so a read can be larger than
  its buffer. `PqLayout.FitOrNot` gives the condition on vector size, block size and position under which it fits;
  `PqLayout.SmallVectorsMisfit` shows that with 4096-byte blocks, which the code assumes when the device does not tell, no read
  for a vector of 3072 bytes or less fits. The reader's guarantees are for files all of whose reads fit, and
  `PqFile.SoundMeansAllFit` shows that this is needed.
- **Rearranging fewer than a hundred vectors.** The progress step of the loop that reorders the PQ file is a hundredth of the
  number of vectors, rounded down, and the loop divides by it. `DiskIndex.BuildDiskIndex` says exactly when the construction
  comes to an end.
- **Merging shards that leave out a node.** Records are written without their ids; record number i is about node i exactly when
  the shards hold all nodes between them (`ShardMerge.RecordsByNode`).
- **Resizing a read cache** moves the client unless the cache was used up (`CachedIo.CachedReader.SetCacheSize`).
- **Edges into the gap.** Moving the frozen points there and back restores an edge exactly when it did not lead into the gap
  (`Reposition.EdgeRestored`); in a dense index none does.

## Model

| member | source | states |
|---|---|---|
| NeighborQueue.QueueRefinesSortedSet | AiSAQ/include/neighbor.h:61-152 | After any run of insertions, expansions and clears the queue holds exactly the capacity-many smallest of the locations inserted since the last clear, strictly ordered by distance and location |
| NeighborQueue.QueueIsNearestFirst | AiSAQ/include/neighbor.h:34-100 | In numbers: an entry in front of another has the smaller distance, or the same distance and the smaller location; a location that was inserted and is not held finds the queue full of entries that are nearer, or as near with smaller locations |
| NeighborQueue.InsertionOrderIrrelevant | AiSAQ/include/neighbor.h:61-100 | Runs that insert the same set of locations, in whatever order, end with the same locations in the same order |
| NeighborQueue.NeighborPriorityQueue.Insert | AiSAQ/include/neighbor.h:61-100 | The binary search and the shifting in place do what a sorted set of bounded size does, and the cursor stays on the first unexpanded entry |
| NeighborQueue.LeaverIsExact | AiSAQ/include/neighbor.h:102-141 | What was held and the new location, less the one reported, is what is held afterwards; nothing else leaves |
| NeighborQueue.NeighborPriorityQueue.InsertWithRemInfo | AiSAQ/include/neighbor.h:102-141 | Inserts like insert and reports exactly the location that leaves or is refused |
| NeighborQueue.NeighborPriorityQueue.ClosestUnexpanded | AiSAQ/include/neighbor.h:143-152 | Returns the closest unexpanded entry, marks it alone, and moves the cursor to the next unexpanded one |
| NeighborQueue.NeighborPriorityQueue.GetNextUnexpandedPosition | AiSAQ/include/neighbor.h:171-188 | Finds the first unexpanded entry behind a position, if there is one; marking it keeps the cursor on the first unexpanded entry |
| GraphSearch.SearchReachesFixedPoint | AiSAQ/src/index.cpp:792-976 | The search ends; its queue is then the L best of the visited locations in the order of QueueIsNearestFirst, each expanded, and every neighbour of a queue member that passes the filter has been visited |
| GraphSearch.StepProgress | AiSAQ/src/index.cpp:883-973 | Every iteration visits a new location or leaves one unexpanded entry fewer, which bounds the loop |
| GraphSearch.LargeListIsExhaustive | AiSAQ/src/index.cpp:792-976 | If L is at least the number of reachable locations, exactly those are visited and end up in the queue |
| GraphSearch.IterateToFixedPoint | AiSAQ/src/index.cpp:792-976 | The loop on the mutable queue computes that fixed point, refuses a starting location outside the graph, and hands pruning the expanded locations in the order of expansion |
| SearchAnswers.SearchIsExact | AiSAQ/src/index.cpp:1960-2019 | With such an L, search reports exactly the K nearest reachable locations that are no frozen points; asked for none, it reports nothing or all of them |
| SearchAnswers.ReportedMeans | AiSAQ/src/index.cpp:1960-2019 | In numbers: what is reported is in ascending order of distance, then of location; with such an L a reachable live location that is not reported is at least as far as every reported one, and has the larger location at the same distance; what K = 0 reports |
| SearchAnswers.TagSearchIsExact | AiSAQ/src/index.cpp:2145-2220 | With such an L, search_with_tags reports tags and distances of exactly the nearest reachable locations that carry a tag, up to K or the clipping by result vectors; asked for none and without result vectors, of all of them |
| IndexState.AnswersInOrder | AiSAQ/src/index.cpp:2145-2220 | In numbers: answers come with ascending distance, at equal distances with ascending location; with such an L a reachable tagged location whose tag is not answered is no nearer than any answer, and finds as many answers as were asked for or had room |
| SearchAnswers.NeverMoreThanAsked | AiSAQ/src/index.cpp:1984-2010 | Asked for at least one, no search reports more than it was asked for |
| SearchAnswers.OnlyTagsInUse | AiSAQ/src/index.cpp:2190-2217 | For every K and L, only tags in the location map are reported |
| SearchAnswers.SearchIndex | AiSAQ/src/index.cpp:1960-2019 | search refuses K above L and otherwise reports the first K live entries of the fixed point, at most K, ascending by distance and then location, and with an L that covers the reachable locations leaves out none that is nearer; for K = 0 it compares too late, and stops at once only if the closest candidate is a frozen point |
| SearchAnswers.SearchWithTags | AiSAQ/src/index.cpp:2145-2220 | search_with_tags refuses K above L and bad starting locations, and otherwise reports the first tagged entries of the fixed point; a bound of 0 never stops it |
| SearchRenaming.SearchRenames | AiSAQ/src/index.cpp:792-976 | A strictly monotone renaming of the locations carries every search over to the renamed graph: queue, visited set and expansion order, distance ties included |
| SearchRenaming.AnswersRename | AiSAQ/src/index.cpp:2145-2220 | Reported tags and distances do not change under such a renaming, for every K, L and clipping |
| Occlusion.OccludeList | AiSAQ/src/index.cpp:1057-1150 | The loop over alpha levels ends and returns a pruning: each choice unoccluded at its round's level while everything passed over was occluded, never more than the degree, and below the degree everything left out occluded at every level |
| Occlusion.PruningIsDetermined | AiSAQ/src/index.cpp:1057-1150 | Two prunings of the same candidates make the same choices in the same rounds: the conditions leave no freedom |
| Occlusion.KeptAreNotOccluded | AiSAQ/src/index.cpp:1093-1143 | A candidate kept after one ahead of it does not coincide with it and is at most alpha times as far from the point as from that candidate |
| Occlusion.DroppedAreOccluded | AiSAQ/src/index.cpp:1093-1143 | If the list is shorter than the degree, then for each level up to alpha every dropped candidate has a kept one ahead of it that coincides with it or is more than that much closer |
| Occlusion.DroppedInNumbers | AiSAQ/src/index.cpp:1087-1148 | The same with a number: a dropped candidate has a kept one ahead of it that coincides with it, or to which it is more than f times closer than to the point, for every f up to alpha / 1.2, and for f = 1.2 as soon as alpha is that large |
| Occlusion.TwoRounds | AiSAQ/src/index.cpp:1087-1148 | With alpha = 1.2 there are two rounds: a choice of the first is occluded at 1.0 by no earlier choice ahead of it, one of the second by some at 1.0 and by none at 1.2 |
| Occlusion.LevelsAre | AiSAQ/src/index.cpp:1087-1148 | The rounds run at 1, 1.2, and on by factors of 1.2 |
| Occlusion.KeptInOrder | AiSAQ/src/index.cpp:1093-1120 | When no choice is deleted or the location itself, the list is the choices in the order in which they were made |
| Occlusion.PrunedShape | AiSAQ/src/index.cpp:1057-1150 | A pruned list is within the degree, free of the location, of deleted ones and of duplicates, and made of candidates |
| Pruning.PruneNeighbors | AiSAQ/src/index.cpp:1160-1198 | The list is the pruning of the sorted and cut candidates, followed under saturation by nearest candidates until it is full or all are listed |
| Pruning.PruneResultMeans | AiSAQ/src/index.cpp:1160-1198 | In full: no duplicates, within the range, without the location, candidates only; a pruning of the candidates in ascending order of distance, cut to the bound, unless there is saturation and alpha is above 1; and then a list with room has all of them |
| Pruning.Saturate | AiSAQ/src/index.cpp:1187-1197 | Saturation appends candidates in order of distance; one that is not listed finds the list full and is farther than all that were appended |
| Pruning.PruneResultNonEmpty | AiSAQ/src/index.cpp:1160-1198 | If there is any candidate and alpha is at least 1, the pruned list is not empty |
| Linking.InterInsert | AiSAQ/src/index.cpp:1201-1263 | Each neighbour of the new node keeps a list that has it, gets it appended while the longer list is within 1.3 times the degree, or has its list and the new node pruned to the degree; no other list changes |
| Linking.Cleanup | AiSAQ/src/index.cpp:1340-1366 | The final pass prunes the lists above the degree and changes no other |
| Linking.LinkingKeepsShape | AiSAQ/src/index.cpp:1201-1263 | In every interleaving of any number of threads' steps, each reading one list at a time for its search and holding one lock to write, stale searches and stale prune results included, every list stays duplicate-free, without self-loop, among linked nodes and within 1.3 times the degree |
| Linking.LinkThenCleanup | AiSAQ/src/index.cpp:1271-1372 | link as a whole, from empty lists: after any interleaving and the final pass every linked node's list is duplicate-free, without self-loop, among linked nodes and within the degree |
| Linking.LinkedAre | AiSAQ/src/index.cpp:1302-1334 | The linked nodes are the starts and those whose own list was set |
| Linking.ReverseEdgeIsARun | AiSAQ/src/index.cpp:1201-1263 | A sequential reverse edge is one or two steps of the concurrent protocol |
| Linking.SearchIsARun | AiSAQ/src/index.cpp:883-973 | A search that nobody disturbs is a run of the concurrent protocol: one reading of a list per iteration, finding all that it visits |
| InsertionRuns.LinkingIsARun | AiSAQ/src/index.cpp:1201-1334 | Linking a node with nothing beside it (search, own list, reverse edges) is a run of the concurrent protocol by one thread, and ends in exactly the graph the sequential code makes |
| IndexSlots.RunIsValid | AiSAQ/src/index.cpp:2622-2678 | In every interleaving of insertions, deletions and consolidations, empty, tagged, deleted and consolidated slots partition the slots, the tag maps are mutual inverses, and the counters agree |
| IndexSlots.InsertionsAreSafe | AiSAQ/src/index.cpp:2858-2960 | In every run an insertion is accepted exactly for a new, unreserved tag while a slot is left, and its slot is none that is tagged, deleted or still being consolidated |
| IndexSlots.LocationIsStable | AiSAQ/src/index.cpp:3039-3058 | A point keeps its location for as long as nobody deletes its tag, whatever else happens |
| IndexSlots.ReuseNeedsConsolidation | AiSAQ/src/index.cpp:2367-2467 | A deleted slot is handed out again only after a consolidation that began after the deletion has ended |
| IndexSlots.AdmittedIffIdle | AiSAQ/src/index.cpp:2373-2398 | The consistency checks at the start of a consolidation pass exactly when no other one holds slots |
| IndexSlots.CapacityLaw | AiSAQ/src/index.cpp:2622-2647 | An insertion finds room exactly while live, deleted and consolidated points together are fewer than the slots |
| IndexSlots.CompactedFlagRight | AiSAQ/src/index.cpp:2622-2647 | After an insertion into a compact index the flag, which stays as it was, tells the truth exactly when the slot picked was the next one |
| IndexSlots.CompactedFlagSafe | AiSAQ/src/index.cpp:2622-2647 | Seen from the state before: every possible pick leaves the flag right exactly when the slot behind the live points is the only empty one |
| IndexSlots.CompactedFlagCanLie | AiSAQ/src/index.cpp:2622-2647 | A run after which the flag is up and the points do not fill the first slots |
| Consolidation.ProcessDelete | AiSAQ/src/index.cpp:2299-2363 | A list without deleted neighbours stays. Otherwise y is a candidate if and only if it is live and on the list, or not the node itself and on the list of a deleted node of the list; the new list has each candidate once if they are within the range, and else is a pruning of exactly those |
| Consolidation.RewiredMeans | AiSAQ/src/index.cpp:2299-2363 | The same of every rewired list, without reference to how the candidates are collected |
| Consolidation.BridgesStay | AiSAQ/src/index.cpp:2299-2363 | A law of the graph: where a survivor led to a deleted node and that one to a live node, the survivor leads there directly afterwards, whenever its candidates fit the range |
| Consolidation.RewiredShape | AiSAQ/src/index.cpp:2299-2363 | A list that had a deleted neighbour becomes a list of live replacement candidates, without duplicates and within the degree; any other stays |
| Consolidation.NoEdgeToDeleted | AiSAQ/src/index.cpp:2367-2467 | If edges out of present nodes ended at present nodes, then after consolidation edges out of survivors end at survivors |
| Consolidation.RewireAll | AiSAQ/src/index.cpp:2429-2447 | The two loops, in place and one location after the other, rewire each survivor as if it were alone, and touch nothing else |
| Consolidation.RewiringReadsOnly | AiSAQ/src/index.cpp:2429-2439 | Rewiring a location reads its own list and those of deleted locations only, so what the parallel loop may write does not depend on the order in which it gets to the locations |
| Compaction.NewLocationMonotone | AiSAQ/src/index.cpp:2511-2530 | Compaction keeps the order of the locations that hold a point, the fact ties depend on |
| Compaction.MoveAll | AiSAQ/src/index.cpp:2538-2583 | The moving loop, which swaps lists in place, puts every present list, renamed, and its vector at the new location and overwrites none that is still to be moved |
| Compaction.CompactLists | AiSAQ/src/index.cpp:2511-2600 | The compacted lists and vectors are those of the graph without dangling edges, renamed; the slots behind the live points hold no lists |
| SlotCompaction.CompactedSlotsValid | AiSAQ/src/index.cpp:2585-2615 | The rebuilt tag maps are mutual inverses and the live points fill exactly the first slots |
| SlotCompaction.TagsFollow | AiSAQ/src/index.cpp:2585-2594 | A location that holds a point carries after compaction, at its new place, the tag it carried before, and none if it carried none |
| Reposition.DeltaMoves | AiSAQ/src/index.cpp:2681-2716 | Adding the 32-bit difference of the two places moves a location of the block right, upwards and downwards |
| Reposition.RepositionPoints | AiSAQ/src/index.cpp:2681-2760 | The block's lists and vectors arrive at the new place, overlap or not, every edge to the block is renamed, lists that were in the way end up where the block was, and the assertions hold exactly when there were none |
| Reposition.EdgeRestored | AiSAQ/src/index.cpp:2681-2716 | Moving there and back puts an edge right exactly when it did not lead into the gap |
| Reposition.GraphRestored | AiSAQ/src/index.cpp:2762-2786 | There and back is the identity on lists exactly when no edge leads into the gap, whatever lists were in the way |
| Reposition.GraphBack | AiSAQ/src/index.cpp:2681-2760 | There and back every list returns to its location, displaced ones included; its edges have been renamed twice |
| Reposition.VectorsRestored | AiSAQ/src/index.cpp:2762-2786 | There and back restores every vector and zeroes the gap |
| Reposition.SavedIndexAnswersAlike | AiSAQ/src/index.cpp:2469-2487 | The part of the moved index that is written answers every query as the index in memory does |
| DynamicIndex.Index.constructor | AiSAQ/src/index.cpp:33-113 | A fresh dynamic index, with at least one slot and one frozen point, is valid, empty, and starts its searches at the first frozen point |
| DynamicIndex.Index.InsertPoint | AiSAQ/src/index.cpp:2858-3008 | Keeps the index valid; succeeds exactly for an unreserved new tag while a slot is left; then it is an insertion of the slot life cycle, the own list is pruned from what the search expanded, each member keeps, extends (within 1.3 times the degree) or prunes its list, nothing else changes, and the point has a neighbour; refused, it changes nothing |
| IndexState.LinkedMeans | AiSAQ/src/index.cpp:1201-1263 | What linking a point does to each list, in numbers: who keeps, who extends up to 13 tenths of the degree, who prunes to the degree |
| DynamicIndex.Index.LazyDelete | AiSAQ/src/index.cpp:3039-3058 | Keeps the index valid; it is a deletion of the slot life cycle: the point leaves the tag maps for the delete set and the compacted flag goes down, while location, list and vector stay |
| DynamicIndex.Index.LazyDeleteAll | AiSAQ/src/index.cpp:3061-3086 | A batch has the effect of its deletions one by one and reports the failed ones in order |
| IndexState.DeletesRemoveExactly | AiSAQ/src/index.cpp:3061-3086 | After a batch exactly the other tags are left; absent tags fail, and without repetitions only those |
| IndexState.FailedAre | AiSAQ/src/index.cpp:3061-3086 | A tag of a batch is reported, at its turn, exactly if it was absent before or occurs earlier in the batch |
| DynamicIndex.Index.ConsolidateDeletes | AiSAQ/src/index.cpp:2367-2467 | Keeps the index valid, so that no edge leads to a reclaimed slot; moves exactly the deleted slots to the empty ones and takes their number off the count; rewires every survivor, bridging over deleted nodes wherever the candidates fit; reports the true counts; and is the start and the end of a consolidation in the slot life cycle |
| DynamicIndex.Index.Lookup | AiSAQ/src/index.cpp:2145-2220 | Answers name present tags only, so never a deleted one, with the distance of their vector; ascending by distance and then location; at most K, and at most as many as there are result vectors; and when L covers what can be reached, every tagged location left out is at least as far as every answer |
| DynamicIndex.Index.CompactData | AiSAQ/src/index.cpp:2490-2617 | Keeps the index valid, makes it dense, and every query, for every K, L and clipping, gets the same tags and distances as before |
| DynamicIndex.Index.CompactFrozenPoint | AiSAQ/src/index.cpp:2469-2487 | The frozen points move behind the live ones and the search starts there, unless there are none or the index is full; the assertions hold exactly when the slots there hold no lists |
| DynamicIndex.Index.RepositionFrozenPointToEnd | AiSAQ/src/index.cpp:2762-2786 | The frozen points move back behind the last slot and the search starts there again; the assertions hold exactly when no list is in the way |
| IndexState.WrittenIffFirst | AiSAQ/src/index.cpp:198-235 | The tags file names every point exactly when the live points fill the first slots; then it reads back as the location map |
| IndexState.ReroutedIsSound | AiSAQ/src/index.cpp:2762-2786 | Moving the frozen points there and back leaves a valid index, whatever was in their way |
| DynamicIndex.Index.Save | AiSAQ/src/index.cpp:268-395 | Files are written exactly when no deletion is pending, and the index stays valid. Every point is in them if and only if compaction was still due or the points filled the first slots; then the assertions hold, and every query gets, from the files and from the index afterwards, the answer it got before |
| DynamicIndex.SaveAfterOneInsertion | AiSAQ/src/index.cpp:2490-2499 | After one insertion into a fresh index with two slots, the point is in the saved files exactly if the reservation picked the first slot |
| ConcurrentIndex.StepKeepsInv | AiSAQ/src/index.cpp:2858-3008 | Claiming a slot, searching, setting the own list, adding and pruning reverse edges, finishing, deleting and consolidating each keep slots, lists, searches in progress and captured prunings consistent |
| ConcurrentIndex.ConsolidateKeepsInv | AiSAQ/src/index.cpp:2367-2467 | A consolidation, alone under the update lock, leaves the shape of the lists and drops exactly the deleted points |
| ConcurrentIndex.NoEdgeToEmptySlot | AiSAQ/src/index.cpp:2858-3008 | In every state of every interleaving of insertions and deletions, with consolidations between them, no list of a linked node leads to an empty slot or to a point that is not linked yet; with no insertion under way every point is linked |
| ConcurrentIndex.ClaimedIsUnreferenced | AiSAQ/src/index.cpp:2858-2960 | A slot that an insertion claims holds no point, and no list of a linked node leads to it |
| InsertionRuns.InsertionIsARun | AiSAQ/src/index.cpp:2858-3008 | From every consistent state, with whatever other threads have claimed, the whole of an insertion that then goes on undisturbed is a run of the protocol: it claims the slot, links it, and ends in the slots, tags and graph of the sequential insertion |
| PqLayout.ParamsAddress | AiSAQ/src/aisaq_pq_reader.cpp:888-918 | The sectors and the offset computed for an id hold the whole vector, at the offset, for files with pages and flat ones |
| PqLayout.FitOrNot | AiSAQ/src/aisaq_pq_reader.cpp:816-834 | A read fits into its buffer exactly when the file has pages, the block is a sector, or the vector touches no extra block and nearly fills the last one |
| PqLayout.SmallVectorsMisfit | AiSAQ/src/aisaq_pq_reader.cpp:786-833 | On 4096-byte blocks no read for a vector of at most 3072 bytes fits its buffer |
| PqLayout.SameOrApart | AiSAQ/src/aisaq_pq_reader.cpp:888-918 | On files with pages two requests read the same sectors or different pages, and the page number tells which |
| PqPool.TakeKeeps | AiSAQ/src/aisaq_pq_reader.cpp:920-936 | With fewer pages hit in the batch than buffers, there is a buffer to take, no page hit in the batch is evicted, and list and map go on naming the same pages |
| PqPool.HeldCount | AiSAQ/src/aisaq_pq_reader.cpp:920-936 | Free, cached and lent buffers together are all the buffers |
| PqReaderAio.ReaderContext.Submit | AiSAQ/src/aisaq_pq_reader.cpp:347-438 | Refuses more ids than allowed and changes nothing then; otherwise always finds the buffers. A request is a hit exactly if its page was cached before; a page that is missed is read once. The page list is then the pages not hit in their old order and behind them those hit by their last hit; a page that had to go was last used before every page that stays, and none goes while a buffer is free |
| PqReaderAio.ReaderContext.WaitCompletion | AiSAQ/src/aisaq_pq_reader.cpp:440-490 | For any completion order: no request is delivered twice, each delivery points at the bytes stored for its id, and fewer than asked for come only for lack of room or when all have been delivered |
| PqReaderAio.ReaderContext.Done | AiSAQ/src/aisaq_pq_reader.cpp:492-516 | The page list is what the hits left, and behind it the pages read, in the order of the reads; every buffer is in the pool again exactly once, and every page read is cached |
| PageRecency.EvictedAreOldest | AiSAQ/src/aisaq_pq_reader.cpp:920-936 | Whatever has been hit and read so far, in any number of batches: the pages evicted while buffers are taken were each last used before all the pages that stay |
| PageRecency.ListIsDetermined | AiSAQ/src/aisaq_pq_reader.cpp:370-384 | The history of uses and the set of cached pages leave only one page list: by last use, the least recent first |
| PageRecency.OrderAfterUses | AiSAQ/src/aisaq_pq_reader.cpp:370-384 | After further uses a list by last use has the pages not used since in their old order, and behind them the others by their last use |
| PqReaderAio.ReaderContext.ClearPageCache | AiSAQ/src/aisaq_pq_reader.cpp:876-884 | All buffers are free again |
| PqReader.AllDelivered | AiSAQ/src/aisaq_pq_reader.cpp:440-490 | With nothing running and nothing waiting, every request of the batch has been delivered |
| PqFile.AddressingIsSound | AiSAQ/src/aisaq_pq_reader.cpp:888-918 | A well-formed file whose reads fit meets everything the reader relies on, page by page and byte by byte |
| PqFile.SoundMeansAllFit | AiSAQ/src/aisaq_pq_reader.cpp:347-400 | Conversely the reader can rely on a file only if all of its reads fit |
| PqFile.ReadVectors | AiSAQ/src/pq_flash_index.cpp:168-191 | Reading any list of ids in batches returns, in the order asked for, the bytes stored for each |
| PqFileWriter.CreatePagedFile | AiSAQ/src/aisaq_utils.cpp:274-355 | Byte by byte: a first sector with number, size and page size as words and zeros behind them, and position id at 4096 + id / p * page + id % p * size, p vectors a page, the vector the map names there, from 8 + nid * size of the flat file, or zeros; and the exact size |
| PqFileWriter.ReadFromPagedFile | AiSAQ/src/aisaq_utils.cpp:274-355 | A reader on the written file gets, for a new id, the vector of the original id the map names |
| Rearrange.WithinIsByPath | AiSAQ/src/aisaq_utils.cpp:124-220 | The levels mean what they should: within k hops is having a path of at most k edges from a start |
| Rearrange.GenerateMap | AiSAQ/src/aisaq_utils.cpp:26-233 | Succeeds exactly with points, an entry point and a known order; then it numbers all nodes without repetition, for every k those within k hops first, and those out of reach last in their old order |
| Rearrange.NumberingIsPermutation | AiSAQ/src/aisaq_utils.cpp:224-232 | The map is a permutation of the ids |
| Rearrange.CreateReversedMap | AiSAQ/src/aisaq_utils.cpp:235-260 | Succeeds exactly when no two entries agree, and then inverts the map on both sides |
| NodeSizing.InlineIsFreeAndTight | AiSAQ/src/aisaq_utils.cpp:262-272 | So many PQ vectors change neither nodes per sector nor sectors per node, and one more would, unless every neighbour has one |
| NodeSizing.FieldsFit | AiSAQ/src/disk_utils.cpp:953-1018 | For every combination of options all fields fit into a node, and rearrangement is given up only when the PQ vectors of all neighbours are inline |
| NodeSizing.AutoIsFree | AiSAQ/src/disk_utils.cpp:993-1005 | Asking for as many PQ vectors as are free does not make the index larger, and takes all that are free |
| NodeSizing.NodeLength | AiSAQ/src/disk_utils.cpp:953-1018 | The exact length of a node for every combination of options, and exactly when the original id is in it and vectors are rearranged |
| DiskNode.BuildNode | AiSAQ/src/disk_utils.cpp:1261-1289 | The node, in the order of its bytes: coordinates, the number of neighbours as a word, the neighbours as words, zeros up to the full width, the original id if ids have changed, the PQ vectors of the first neighbours, zeros to the end |
| Bytes.LowByteFirst | AiSAQ/src/disk_utils.cpp:1261-1289 | A word is four bytes, the lowest first, that make up the number |
| DiskLayout.NodesApart | AiSAQ/src/disk_utils.cpp:1214-1300 | Nodes do not overlap, whether they share sectors or fill several |
| DiskLayout.CreateDiskLayout | AiSAQ/src/disk_utils.cpp:1101-1378 | The node at the place of x's new id is x's, and the metadata are the number of points, the renamed medoid, node length, 4096 / length nodes per sector and the size of the file, which is a sector and as many sectors as the nodes need; it fails exactly for rearranging fewer than a hundred vectors |
| DiskLayout.NodeInBytes | AiSAQ/src/disk_utils.cpp:1232-1289 | The bytes of x's node in the file: x's coordinates, x's neighbours under their new ids in the same order, x itself, and inline the PQ vectors x's first neighbours had |
| DiskLayout.NodePosition | AiSAQ/src/disk_utils.cpp:1214-1300 | Where a node begins: 4096 + i / p * 4096 + i % p * length with p = 4096 / length nodes to a sector, or 4096 + i times the sectors of one node |
| DiskIndex.BuildDiskIndex | AiSAQ/src/disk_utils.cpp:1040-1378 | From graph file, vectors and PQ vectors to the index: it fails exactly without entry points or with fewer than a hundred vectors to rearrange; otherwise the ids grow with the hops from the entry points, and every node and PQ vector is found under its new id |
| DiskIndex.FetchNeighbours | AiSAQ/src/disk_utils.cpp:1101-1289 | The ids on a stored list, read through the reader from the PQ file written beside it, bring the PQ vectors of the neighbours the node had in the graph |
| GraphFile.MaxDegreeIsMax | AiSAQ/src/in_mem_graph_store.cpp:200-230 | The degree written in the header bounds every list, and some list attains it |
| GraphFile.ReadsBack | AiSAQ/src/in_mem_graph_store.cpp:135-198 | Reading records by byte count undoes writing them, whatever follows |
| GraphFile.ReadsToABoundary | AiSAQ/src/in_mem_graph_store.cpp:160-198 | With any other number of bytes reading succeeds exactly if they end at a record, and then brings the records before it |
| GraphFile.InMemGraphStore.SaveGraph | AiSAQ/src/in_mem_graph_store.cpp:200-230 | The header in words: the size of the file in bytes and the number of frozen points with the lower word first, the largest degree of a list, the start; and then the records |
| DiskLayout.RecordsInWords | AiSAQ/src/in_mem_graph_store.cpp:200-230 | The records in words: one after the other, at each node's place its degree and behind that its list |
| GraphFile.InMemGraphStore.LoadImpl | AiSAQ/src/in_mem_graph_store.cpp:135-198 | Loading takes in exactly the records the header's size spans, enlarges a store that is too small, and runs over the end of the file or of the store in the other cases |
| GraphFile.SaveAndLoad | AiSAQ/src/in_mem_graph_store.cpp:135-230 | Loading what was saved gives back the lists in order, the start, the frozen count, the number of points and the true largest degree |
| CachedIo.CachedReader.Read | AiSAQ/include/cached_io.h:60-101 | A read returns what the plain file holds at the client's position, or its error, for every cache size; behind the end it breaks the stream for good, as the plain one |
| CachedIo.CachedReader.SetCacheSize | AiSAQ/include/cached_io.h:108-122 | A new cache size leaves the client where it was exactly if nothing unread was cached |
| CachedIo.CachedReader.Run | AiSAQ/include/cached_io.h:60-122 | Any sequence of reads, seeks anywhere, and resizes followed by a seek gets the answers and errors of the plain file |
| CachedIo.CachedWriter.Run | AiSAQ/include/cached_io.h:163-224 | Any sequence of writes and resets leaves, once closed, what a plain file would hold, for every cache size |
| CachedIo.WritesAreJoined | AiSAQ/include/cached_io.h:187-209 | Without a reset the file is the concatenation of the writes |
| CachedIo.RewoundWrites | AiSAQ/include/cached_io.h:220-224 | Writes after a reset lie over the beginning of what was written before |
| ShardMerge.MergeShards | AiSAQ/src/disk_utils.cpp:242-480 | The merged file has one record for node 0 and for every node some shard holds, ascending. A record names nodes once, no more than the maximal degree, each of them named by some shard's list for the node; if it has room, all of them. The size in the header is the length of the file, and the medoids are renamed |
| ShardMerge.RecordsByNode | AiSAQ/src/disk_utils.cpp:406-480 | Record number i is about node i exactly when the shards hold all nodes between them |

## Left out

- Search lists of length 0 (L = 0): inserting into a queue without capacity reads in front of it.
- Floating point: distances are reals, so no rounding, overflow or NaN; the largest float is a value of its own.
- 64-bit wrap-around of file sizes and counters; 32-bit products in the size of a node and in the number of inline PQ vectors.
- Labels and filters on insertion, saving of tags, labels and delete lists, batch building on a dynamic index, resizing.
- Building with PQ distances, inner-product occlusion, random entry points, the optimised layout.
- Consolidation that runs beside insertions: the slots are proved safe for every interleaving, the edges for the locked form.
- DynamicIndex.Index.InsertPoint: one insertion, with nothing beside it; what holds when insertions and deletions overlap is the
  subject of `concurrent_index`, which says what lists are made of, not which neighbours a disturbed search prefers.
- InsertionRuns.InsertionIsARun: the other threads stand still while the insertion runs; that they may move is what the invariants
  of `concurrent_index` are for.
- Saving without compaction; loading; the number of dangling edges that compaction prints.
- DynamicIndex.Index.Save: states what is written as values; the byte formats are modelled in `graph_file`.
- Linking.LinkingKeepsShape: the order in which a disturbed search reads lists is arbitrary, and so is where it stops.
- The uring engine, which repeats the same logic; kernel errors; opening files, asking the device for its block size.
- Short reads at the end of a flat PQ file: what a buffer holds behind the bytes of the vector is not modelled.
- Allocation failures.
- The scores of the other orders of the rearrangement, which only decide the order inside a level.
- Sorting and shuffling inside a level of the rearrangement and reading it in blocks of 1024: any order is allowed for.
- Rearrange.GenerateMap: a read that fails counts as a node without neighbours, so the hops are those of the lists that were read.
- Lists longer than the width when the disk index is written (asserted away); reorder data behind the nodes; the metadata sector
  is modelled as a record of its values; the rearranged medoid and entry-point files.
- DiskLayout.CreateDiskLayout: without rearrangement the records are read one after the other, here by their places, which agree.
- Breaking up dense points, label files of merged shards, the bodies of `PQFlashIndex` other than reading PQ vectors.
- Fixed-size arrays of the queue, of the vectors and of adjacency lists are fields of sequence type that methods reassign.
