# Single-linkage clustering over a vantage-point tree

This project models `HClustSingleBiVpTree`, the engine behind `hclust2`. It
computes a single-linkage hierarchical clustering of `n` items under a
user-supplied distance. The model proves that the engine produces a
single-linkage merge sequence and renders it as R's `hclust` merge matrix.

The engine works as follows:

- It shuffles the item indices.
- It builds a binary vantage-point tree over them. Each inner node splits its range
  around a vantage point into four quadrants: inside or outside the median radius,
  and at or below or above the vantage point's index.
- It keeps a memoising distance oracle.
- It keeps a lazily refilled buffer of nearest neighbours for every item. A buffer
  is refilled by a tree search for the items at the next distance level at or above
  the item's last radius, with larger index and in another cluster.
- `compute` keeps a priority queue holding one candidate merge per item. It pops
  the closest candidate and links the two clusters in a disjoint-set structure when
  they differ. It then asks the popped item's buffer for its next neighbour, until
  `n - 1` merges are made.
- `generateMergeMatrix` rewrites the merges in R's convention.

The modules follow the program's parts:

- `SortedPoints` (`sorted_point.dfy`): the `SortedPoint` key.
- `DistanceOracle` (`distance.dfy`): the class `Distance` with its cache.
- `DisjointSets` (`disjoint_sets.dfy`): the partition into clusters, as a value.
- `HeapItems` (`heap_items.dfy`): the two heap items, their comparators, and both
  priority queues as sorted sequences.
- `VpTree` (`vptree.dfy`): tree nodes and the well-formedness of a built tree.
- `NeighborSearch` (`search.dfy`): what one recursive search computes, stated by the
  predicate `IsBatch`, with a reference linear scan.
- `MergeEngine` (`engine.dfy`): the buffers and the invariant of `compute`'s loop.
- `MergeMatrix` (`merge_matrix.dfy`): `generateMergeMatrix`.
- `MergeClusters` (`merge_clusters.dfy`): what the rows of `generateMergeMatrix` mean
  for merges that each join two different clusters.
- `HClust` (`hclust.dfy`): the class `HClustSingleBiVpTree` itself. Its methods
  update its fields and its index array in place and are proved against the
  functions and predicates of the other modules.

The central results are these:

- `HClust.HClustSingleBiVpTree.Compute` returns exactly `n - 1` merges.
- Replayed through `link`, the merges leave one cluster.
- Each merge joins two items at their distance, at a height no lower than the one
  before.
- Each merge is a single-linkage merge: no two items in different clusters are
  closer than its height.
- The returned matrix is `MergeMatrix.MergeRows` of the merges.
- `MergeMatrix.MergeRowsConvention` proves, for every row, that an entry is `-v`
  exactly when no earlier merge named the item `v`, and that a positive entry is the
  number of an earlier row.
- For merges that each join two different clusters, as `compute`'s do:
  - `MergeClusters.RunClustersAreSets` proves that the earlier cluster a step finds
    for an item holds exactly that item's set in the partition the merges so far
    build, and that no other cluster holds the item.
  - `MergeClusters.MergeRowsJoinTwo` proves that no row names one earlier row twice.
- `MergeClusters.MergeRowsReferOnce` proves that no two rows name the same earlier
  row, because the `clear()` calls empty every cluster a row names.
- Together these make the rows a valid R `merge` matrix.
- Every tree search returns exactly the items at the smallest admissible distance
  (`NeighborSearch.IsNearest`). `NeighborSearch.NearestAgreesWithLinearScan` ties it
  to a scan over all items.

## Model

| member | source | states |
|---|---|---|
| SortedPoints.MakeSortedPoint | src/vptree_binhierarchical.cpp:49-61 | the key holds the two indices, the smaller first |
| SortedPoints.MakeSortedPointSymmetric | src/vptree_binhierarchical.cpp:49-61 | the key does not depend on the argument order |
| SortedPoints.MakeSortedPointInjective | src/vptree_binhierarchical.cpp:49-66 | two keys are equal (`operator==`) exactly when they were built from the same unordered pair |
| DistanceOracle.Distance.constructor | src/vptree_binhierarchical.cpp:119-127 | one empty cache row per item, both counters zero |
| DistanceOracle.Distance.Call | src/vptree_binhierarchical.cpp:138-177 | 0 on the diagonal; a cached pair is answered from the cache (hit counted); otherwise the callback is called, its value stored under the sorted pair (miss counted); existing entries never change; for a symmetric callback the answer is the distance of the pair |
| DisjointSets.MakeSets | src/vptree_binhierarchical.cpp:600-601 | `n` singleton sets, each item its own representative |
| DisjointSets.Link | src/vptree_binhierarchical.cpp:692 | two items are together afterwards exactly when they were before or one was in each of the two linked sets |
| DisjointSets.LinkCount | src/vptree_binhierarchical.cpp:692 | linking two different sets lowers the number of sets by one |
| DisjointSets.LinkCoarsens | src/vptree_binhierarchical.cpp:692 | linking keeps every pair already together and joins the two linked sets |
| DisjointSets.SingleSet | src/vptree_binhierarchical.cpp:672 | when every item is with item 0 there is one set |
| DisjointSets.Replay | src/vptree_binhierarchical.cpp:680-692 | replaying merges of different clusters from singletons leaves `n - |merges|` sets |
| HeapItems.CandidateLessAsWrittenIsReflexive | src/vptree_binhierarchical.cpp:208-210 | the `>=` comparator ranks every candidate below itself |
| HeapItems.CandidateLessIsStrictWeakOrder | src/vptree_binhierarchical.cpp:208-210 | the intended comparator (`>`) is irreflexive and transitive, and its incomparability is transitive |
| HeapItems.PushNeighbor | src/vptree_binhierarchical.cpp:387 | `push` adds exactly the new item to the heap's contents |
| HeapItems.PushNeighborSorted | src/vptree_binhierarchical.cpp:195-197 | `push` keeps the search heap ordered by distance |
| HeapItems.NeighborTopIsGreatest | src/vptree_binhierarchical.cpp:388 | `top()` of the search heap is a farthest neighbour |
| HeapItems.PushCandidate | src/vptree_binhierarchical.cpp:660 | `push` adds exactly the new candidate to the queue's contents |
| HeapItems.PushCandidateSorted | src/vptree_binhierarchical.cpp:208-210 | `push` keeps the merge queue ordered by distance |
| HeapItems.CandidateTopIsClosest | src/vptree_binhierarchical.cpp:677 | `top()` of the merge queue is a closest candidate |
| VpTree.HalfIsDivision | src/vptree_binhierarchical.cpp:302 | the recursive halving is integer division by 2 |
| VpTree.Median | src/vptree_binhierarchical.cpp:302 | the median position lies in the range, strictly after `left` once the range has three items |
| VpTree.MedianIsMidpoint | src/vptree_binhierarchical.cpp:302 | the median is `(right + left - 1) / 2` |
| VpTree.FlattenIsRange | src/vptree_binhierarchical.cpp:288-327 | the leaves of a built tree cover its range of `_indices` in order, with nothing left out |
| VpTree.EveryItemInOneLeaf | src/vptree_binhierarchical.cpp:603 | the tree over `0..n` holds every item exactly once |
| VpTree.NodeSplitPermuted | src/vptree_binhierarchical.cpp:319-322 | the quadrant facts of a node survive the reordering of each quadrant by its subtree |
| VpTree.WfFrame | src/vptree_binhierarchical.cpp:319-322 | a subtree stays well formed while its range of `_indices` is untouched |
| NeighborSearch.EmptyBatch | src/vptree_binhierarchical.cpp:518-522 | an empty heap with `_tau = INFINITY` is the answer over no items |
| NeighborSearch.PopTies | src/vptree_binhierarchical.cpp:381-383 | the pops remove exactly the entries tied at `maxR` from the top |
| NeighborSearch.PushBehind | src/vptree_binhierarchical.cpp:387 | an item no closer than any heap entry is pushed on top |
| NeighborSearch.CloserStep | src/vptree_binhierarchical.cpp:379-388 | a strictly closer item empties the heap of ties and becomes its only entry and the new `maxR` |
| NeighborSearch.TiedStep | src/vptree_binhierarchical.cpp:379-388 | an item tied at `maxR` is added on top and `maxR` stays |
| NeighborSearch.CloserItem | src/vptree_binhierarchical.cpp:379-388 | after a strictly closer item, that item alone is the answer over the items seen |
| NeighborSearch.TiedItem | src/vptree_binhierarchical.cpp:379-388 | after an item tied at `maxR`, the heap with it added is the answer over the items seen |
| NeighborSearch.LeafStepKeepsBatch | src/vptree_binhierarchical.cpp:370-389 | one turn of the leaf loop keeps the heap the exact answer over the items seen and never raises `maxR` |
| NeighborSearch.ScanKeepsBatch | src/vptree_binhierarchical.cpp:370-389 | the leaf loop over distinct items keeps the heap the exact answer and never raises `maxR` |
| NeighborSearch.LinearScanIsNearest | src/vptree_binhierarchical.cpp:370-389 | the leaf loop run over all items finds the complete answer, and its `maxR` is the answer's distance |
| NeighborSearch.BatchUnique | src/vptree_binhierarchical.cpp:362-432 | two answers over the same items hold the same items at the same `maxR` |
| NeighborSearch.NearestAgreesWithLinearScan | src/vptree_binhierarchical.cpp:362-432 | a complete answer of the tree search agrees with the linear scan's, in items and in radius |
| NeighborSearch.PruneInner | src/vptree_binhierarchical.cpp:400 | under the triangle inequality, the inner quadrants that the test skips hold no item of the answer |
| NeighborSearch.PruneOuter | src/vptree_binhierarchical.cpp:408 | under the triangle inequality, the outer quadrants that the test skips hold no item of the answer |
| NeighborSearch.PruneByIndex | src/vptree_binhierarchical.cpp:402 | the lower quadrants skipped when `index > vpindex` hold no item of the answer |
| MergeEngine.InitialBuffers | src/vptree_binhierarchical.cpp:585-594 | every count is 0, every `minRadiuses` entry -INFINITY, every `shouldFind` true and every buffer empty |
| MergeEngine.Serve | src/vptree_binhierarchical.cpp:510-551 | `getNearestNeighbor` keeps every per-item vector at length `n` |
| MergeEngine.Refilled | src/vptree_binhierarchical.cpp:516-538 | a refill keeps every per-item vector at length `n` |
| MergeEngine.InitialInv | src/vptree_binhierarchical.cpp:585-604 | the constructor's state satisfies the loop invariant with nothing prefetched |
| MergeEngine.PrefetchOpens | src/vptree_binhierarchical.cpp:647-655 | before item `i` is prefetched, it may call `getNearestNeighbor` |
| MergeEngine.ServeCloses | src/vptree_binhierarchical.cpp:510-551 | `getNearestNeighbor` plus the push of its result restores the invariant; the item handed out is new for its owner |
| MergeEngine.RefillCloses | src/vptree_binhierarchical.cpp:516-538 | a refill with the search's complete answer restores the invariant |
| MergeEngine.RefillBatchFacts | src/vptree_binhierarchical.cpp:530-534 | a batch holds items above the query not yet handed out; `neighborsCount[index]` stays at most `n - index - 1`, so the `> _n - index` test never fires |
| MergeEngine.RefillEmptyCloses | src/vptree_binhierarchical.cpp:533-534 | an empty batch stops further searches and leaves nothing to hand out |
| MergeEngine.RefillFullCloses | src/vptree_binhierarchical.cpp:530-547 | a non-empty batch is stored and its first item handed out, restoring the invariant |
| MergeEngine.HandOutCloses | src/vptree_binhierarchical.cpp:540-544 | handing out the buffer's front and queueing it restores the invariant |
| MergeEngine.BufferedCloses | src/vptree_binhierarchical.cpp:540-550 | without a refill, handing out from the buffer, or the sentinel, restores the invariant |
| MergeEngine.ServedAtMostSquare | src/vptree_binhierarchical.cpp:672 | at most `n * n` neighbours are ever handed out, which bounds the loop |
| MergeEngine.MergeStep | src/vptree_binhierarchical.cpp:680-692 | after the round the two items are together, and every pair together before stays together |
| MergeEngine.EntriesAfterPop | src/vptree_binhierarchical.cpp:677-678 | after `pop` the queue stays sorted and every entry lies at or above the popped distance |
| MergeEngine.BuffersCoarsen | src/vptree_binhierarchical.cpp:692 | coarsening the partition keeps every buffer's invariant |
| MergeEngine.PopKeepsCore | src/vptree_binhierarchical.cpp:677-692 | popping the front and linking its items keeps the queue and buffer invariants |
| MergeEngine.PopOpens | src/vptree_binhierarchical.cpp:677-692 | after the pop and the link, the popped item may call `getNearestNeighbor` |
| MergeEngine.FrontIsClosest | src/vptree_binhierarchical.cpp:677 | the queue's front is no farther than any two items in different clusters |
| MergeEngine.EmptyQueueMeansOneCluster | src/vptree_binhierarchical.cpp:672-677 | under the invariant an empty queue means one cluster is left, so `pq.top()` is never taken from an empty queue while a merge is missing |
| MergeEngine.RecordMerge | src/vptree_binhierarchical.cpp:682-692 | committing a closest pair extends the replayed partition by one `link` and keeps every merge single-linkage |
| MergeEngine.CommitStep | src/vptree_binhierarchical.cpp:677-692 | a round commits the front exactly when its items are in different clusters, and the merge history stays single-linkage and nondecreasing |
| MergeEngine.CommitHistory | src/vptree_binhierarchical.cpp:682-692 | a round with the closest pair extends the history when the clusters differ and leaves it otherwise |
| MergeEngine.HistoryExtends | src/vptree_binhierarchical.cpp:688-692 | writing a merge of two different clusters at the least distance keeps the history |
| MergeEngine.AppendHeights | src/vptree_binhierarchical.cpp:688-689 | the new merge's height is its pair's distance, and the heights stay nondecreasing |
| MergeMatrix.LatestWith | src/vptree_binhierarchical.cpp:474-477 | the backward scan finds a cluster holding the item, or -1 for `SIZE_MAX` |
| MergeMatrix.Step | src/vptree_binhierarchical.cpp:478-504 | each entry is `-i` exactly when no earlier cluster holds `i`, otherwise the 1-based number of an earlier cluster that holds it |
| MergeMatrix.RunRow | src/vptree_binhierarchical.cpp:469-505 | row `t` of the matrix is the row step `t` writes, and later steps do not change it |
| MergeMatrix.StepHolds | src/vptree_binhierarchical.cpp:484-504 | `clear()` loses no item: an item held before a step is held afterwards |
| MergeMatrix.StepNamed | src/vptree_binhierarchical.cpp:478-504 | after a step, a cluster holds only items that some merge so far names |
| MergeMatrix.StepTracks | src/vptree_binhierarchical.cpp:469-505 | each step keeps the clusters equal to the items the merges so far name |
| MergeMatrix.RunTracks | src/vptree_binhierarchical.cpp:469-505 | after `k` steps an item is held by a cluster exactly when one of the first `k` merges names it |
| MergeMatrix.NamedIffHeld | src/vptree_binhierarchical.cpp:474-477 | the scan finds the item exactly when an earlier merge names it |
| MergeMatrix.StepRowConvention | src/vptree_binhierarchical.cpp:478-504 | a row's entry is `-v` exactly when no earlier merge names `v`; otherwise it names an earlier row |
| MergeMatrix.MergeRowsConvention | src/vptree_binhierarchical.cpp:461-507 | an entry of row `k` is `-v` exactly when none of the first `k` merges names `v`; a positive entry is at most `k`, naming an earlier row |
| MergeMatrix.ScanBack | src/vptree_binhierarchical.cpp:474-477 | the `while` loop computes the backward scan |
| MergeMatrix.MergeRow | src/vptree_binhierarchical.cpp:470-504 | the four branches write the row and the clusters of one step |
| MergeMatrix.EmitRow | src/vptree_binhierarchical.cpp:469-505 | one turn of the `for` loop extends the rows and the clusters by one step |
| MergeMatrix.GenerateMergeMatrix | src/vptree_binhierarchical.cpp:461-507 | the matrix is the merge rows of the merges |
| MergeClusters.StepClears | src/vptree_binhierarchical.cpp:484-504 | the `clear()` calls empty every earlier cluster the row refers to |
| MergeClusters.StepKeepsEmpty | src/vptree_binhierarchical.cpp:478-504 | a step fills only its own cluster, so an empty earlier cluster stays empty |
| MergeClusters.ClearedStays | src/vptree_binhierarchical.cpp:469-505 | a cluster emptied at some step stays empty through every later step |
| MergeClusters.StepRefersHeld | src/vptree_binhierarchical.cpp:474-504 | a row refers only to a cluster that holds an item when the step begins |
| MergeClusters.RowClears | src/vptree_binhierarchical.cpp:469-505 | the cluster row `k` refers to was made before step `k` and is empty after it |
| MergeClusters.RowRefersHeld | src/vptree_binhierarchical.cpp:469-505 | the cluster row `k` refers to holds an item when step `k` begins |
| MergeClusters.MergeRowsReferOnce | src/vptree_binhierarchical.cpp:461-507 | once a row refers to the cluster made at step `e - 1`, no later row refers to it |
| MergeClusters.HeldComponent | src/vptree_binhierarchical.cpp:474-477 | under `Partitioned`, the cluster the scan finds for `v` is `v`'s whole set, and an item it does not find is alone |
| MergeClusters.HeldOnlyThere | src/vptree_binhierarchical.cpp:474-477 | under `Partitioned`, any cluster holding a member of `v`'s set is the one the scan finds for `v` |
| MergeClusters.StepShape | src/vptree_binhierarchical.cpp:478-504 | for a merge of two different sets, the new cluster is the union of both sets and the two clusters it absorbs are emptied; the others are unchanged |
| MergeClusters.StepClusterIsSet | src/vptree_binhierarchical.cpp:478-504 | after the step, every non-empty cluster is a whole set of the linked partition |
| MergeClusters.StepClustersDisjoint | src/vptree_binhierarchical.cpp:478-504 | after the step, no item lies in two clusters |
| MergeClusters.StepLeavesOut | src/vptree_binhierarchical.cpp:478-504 | an item the step's cluster does not hold lies in neither merged set |
| MergeClusters.StepAlone | src/vptree_binhierarchical.cpp:478-504 | after the step, an item no cluster holds is still alone in the linked partition |
| MergeClusters.StepPartitioned | src/vptree_binhierarchical.cpp:478-504 | a step on a merge of two different sets keeps `Partitioned` for the partition with those sets linked |
| MergeClusters.RunPartitioned | src/vptree_binhierarchical.cpp:469-505 | after every prefix of merges that each join two different sets, the clusters are the sets of the replayed partition |
| MergeClusters.RunClustersAreSets | src/vptree_binhierarchical.cpp:469-505 | the cluster the scan finds for `v` is exactly `v`'s set in the replayed partition; otherwise `v` is alone; no other cluster holds `v` |
| MergeClusters.StepJoinsTwo | src/vptree_binhierarchical.cpp:478-504 | on a merge of two different sets, the row never names one earlier cluster twice |
| MergeClusters.MergeRowsJoinTwo | src/vptree_binhierarchical.cpp:461-507 | for merges that each join two different sets, no row names the same earlier row in both entries |
| HClust.SplitAfterSelection | src/vptree_binhierarchical.cpp:301-315 | the selection and the two partitions leave the node's four quadrants split by radius and by index, with the vantage point in the first quadrant |
| HClust.FinishNode | src/vptree_binhierarchical.cpp:319-326 | a node whose four subtrees are built is well formed over its range |
| HClust.SelectionStep | src/vptree_binhierarchical.cpp:303-304 | moving the nearest remaining item forward extends the ordered prefix |
| HClust.DropTies | src/vptree_binhierarchical.cpp:381-383 | the `pop` loop removes the ties at `maxR` |
| HClust.AdmitNeighbor | src/vptree_binhierarchical.cpp:377-388 | the rest of a leaf turn, once the distance is known |
| HClust.HClustSingleBiVpTree.constructor | src/vptree_binhierarchical.cpp:585-604 | the vectors as initialised, singleton sets, and a well-formed tree over a permutation of the items |
| HClust.HClustSingleBiVpTree.ShuffleIndices | src/vptree_binhierarchical.cpp:596-598 | `_indices` becomes a permutation of `0..n-1` |
| HClust.HClustSingleBiVpTree.Swap | src/vptree_binhierarchical.cpp:598 | `swap` exchanges two entries and permutes within the range |
| HClust.HClustSingleBiVpTree.Measure | src/vptree_binhierarchical.cpp:376 | a call of the oracle yields the pair's distance |
| HClust.HClustSingleBiVpTree.NearestIn | src/vptree_binhierarchical.cpp:303-304 | the position in the range of an item nearest the vantage point |
| HClust.HClustSingleBiVpTree.Closer | src/vptree_binhierarchical.cpp:303-304 | one comparison of the selection keeps the nearest item so far |
| HClust.HClustSingleBiVpTree.NthElement | src/vptree_binhierarchical.cpp:303-304 | `nth_element`: a permutation within the range with no item before `nth` farther and none after it nearer |
| HClust.HClustSingleBiVpTree.Partition | src/vptree_binhierarchical.cpp:314-315 | `partition` with `IndexComparator`: a permutation within the range, items `<= pivot` first, and the split point returned |
| HClust.HClustSingleBiVpTree.SplitRange | src/vptree_binhierarchical.cpp:300-315 | the vantage point, radius, median and the two partition points of a node, with the quadrants split and the vantage point in the first quadrant |
| HClust.HClustSingleBiVpTree.BuildFromPoints | src/vptree_binhierarchical.cpp:288-327 | a well-formed tree over the range, with `_indices` permuted only within it |
| HClust.HClustSingleBiVpTree.Search | src/vptree_binhierarchical.cpp:362-432 | searching a subtree extends the exact answer by the subtree's items and never raises `maxR` |
| HClust.HClustSingleBiVpTree.SearchInner | src/vptree_binhierarchical.cpp:398-429 | the same for an inner node, by the side of the radius the query lies on |
| HClust.HClustSingleBiVpTree.InnerThenOuter | src/vptree_binhierarchical.cpp:399-413 | inside the radius: inner half, then outer half, each visited or pruned |
| HClust.HClustSingleBiVpTree.OuterThenInner | src/vptree_binhierarchical.cpp:415-428 | outside the radius: outer half, then inner half |
| HClust.HClustSingleBiVpTree.SearchInnerHalf | src/vptree_binhierarchical.cpp:400-406 | the inner half is searched when the test passes and pruned otherwise; either way the answer extends over its items |
| HClust.HClustSingleBiVpTree.SearchOuterHalf | src/vptree_binhierarchical.cpp:408-413 | the outer half is searched or pruned likewise |
| HClust.HClustSingleBiVpTree.SearchQuadrants | src/vptree_binhierarchical.cpp:402-405 | the lower quadrant, only when `index <= vpindex`, then the upper one |
| HClust.HClustSingleBiVpTree.SearchLowerQuadrant | src/vptree_binhierarchical.cpp:402-403 | the lower quadrant is searched or skipped by index; either way the answer extends |
| HClust.HClustSingleBiVpTree.SearchLeaf | src/vptree_binhierarchical.cpp:368-390 | a leaf extends the exact answer by its items |
| HClust.HClustSingleBiVpTree.ScanLeaf | src/vptree_binhierarchical.cpp:370-389 | the leaf `for` loop computes the scan of its range |
| HClust.HClustSingleBiVpTree.LeafVisit | src/vptree_binhierarchical.cpp:372-388 | one turn of the leaf loop computes `LeafStep` |
| HClust.HClustSingleBiVpTree.GetNearestNeighbor | src/vptree_binhierarchical.cpp:510-551 | refills from the search's complete answer when asked, then hands out the front or the sentinel |
| HClust.HClustSingleBiVpTree.Refill | src/vptree_binhierarchical.cpp:516-538 | a tree search from the root yields the complete answer, stored as `Refilled` |
| HClust.HClustSingleBiVpTree.StoreBatch | src/vptree_binhierarchical.cpp:525-537 | storing a batch updates the buffer, count, flag and radius as `Refilled` |
| HClust.HClustSingleBiVpTree.SearchAll | src/vptree_binhierarchical.cpp:518-524 | a search from the root with `_tau = INFINITY` finds the complete answer |
| HClust.HClustSingleBiVpTree.Prefetch | src/vptree_binhierarchical.cpp:647-663 | the prefetch loop establishes the loop invariant |
| HClust.HClustSingleBiVpTree.MergeLoop | src/vptree_binhierarchical.cpp:671-715 | the main loop ends with `n - 1` merges satisfying the history |
| HClust.HClustSingleBiVpTree.Round | src/vptree_binhierarchical.cpp:677-709 | one round keeps the invariant and the history and makes progress |
| HClust.HClustSingleBiVpTree.CommitFront | src/vptree_binhierarchical.cpp:677-692 | the queue is non-empty, the front is popped and, when its clusters differ, written as the next merge and linked |
| HClust.HClustSingleBiVpTree.Unite | src/vptree_binhierarchical.cpp:680-692 | the merge is written and the two sets linked exactly when `find_set` differs |
| HClust.HClustSingleBiVpTree.Requeue | src/vptree_binhierarchical.cpp:707-709 | the popped item's next neighbour is queued, restoring the invariant |
| HClust.HClustSingleBiVpTree.Compute | src/vptree_binhierarchical.cpp:631-720 | `n - 1` merges that replay to one cluster, each at its pair's distance and single-linkage, heights nondecreasing; the result is their merge matrix |

## Left out

- The R binding `hclust2`, the R callback and the conversion of `RObject`s are not modelled. The distance is a total function on item indices, given to the constructor.
- The `HARDCODE_EUCLIDEAN_DISTANCE` variant is not modelled; the callback is always used.
- Distances are mathematical reals, not IEEE doubles. NaN and rounding are not modelled.
- The diagnostics are not modelled. This covers `print`, the `VERBOSE` output, `misses` and the destructor's hit and miss report.
- The destructors (`~Node`, `~HClustSingleBiVpTree`) are not modelled; memory is not modelled.
- The vector `maxRadiuses` is never read by the code, so it is not modelled.
- `generateMergeMatrix`'s check `x.ncol() != 2` is not modelled: the merges are a sequence of pairs, so the check cannot fail.
- MergeMatrix.GenerateMergeMatrix: a module-level method rather than a member of the class. It sizes the matrix by `|x|`, where the source uses `_n - 1` (`size_t n = _n-1;`). The two agree on `compute`'s output, which has `n - 1` rows, and differ only for an `x` that `compute` did not produce.
- MergeMatrix.MergeRows: entries are integers, not the `double`s of `NumericMatrix`.
- DisjointSets.Link: boost's `disjoint_sets` is replaced by a quick-find representative sequence. The partition it maintains is the same, but path compression, union by rank and the particular representative chosen are not modelled.
- HeapItems.PushNeighbor: the search heap is a sorted sequence; HeapItems.PushCandidate does the same for the merge queue. Among equal distances, `top()` order may differ from `std::priority_queue`'s. The proofs only use distances.
- HClust.HClustSingleBiVpTree.NthElement: a selection that orders the prefix. `std::nth_element`'s arrangement within the two sides is unspecified, and only its contract is modelled.
- HClust.HClustSingleBiVpTree.ShuffleIndices: the choice `unif_rand()*(i+1)` is an arbitrary index in `[0, i]`. The distribution is not modelled.
- HClust.HClustSingleBiVpTree.GetNearestNeighbor: returns None where the source returns the sentinel `(SIZE_MAX, -INFINITY)`.
- HClust.HClustSingleBiVpTree.constructor: requires `n >= 1`, because for `n == 0`, `_n-1` wraps in `size_t` and the source's loops misbehave.
- HClust.HClustSingleBiVpTree.constructor: requires the callback to be a metric: non-negative, symmetric and obeying the triangle inequality. The source relies on this without checking it, and the tree's pruning is only correct under it.
- HClust.HClustSingleBiVpTree.Compute: requires the state the constructor leaves (empty buffers, singleton sets). A second call of `compute` on the same object is not modelled.
- Helper methods split one source loop body or branch into several members for the verifier, among them `Closer`, `LeafVisit`, `AdmitNeighbor`, `SearchQuadrants`, `CommitFront`, `Unite`, `Requeue` and `EmitRow`. Each covers exactly the source lines cited for it.
- `Node`'s NULL children are a `Null` constructor. Inner nodes also record their range and partition points, which the source does not store.

## Findings

| source | as written | input that shows it | evidently intended | confidence | as-written member | corrected member |
|---|---|---|---|---|---|---|
| src/vptree_binhierarchical.cpp:208-210 | `HeapHierarchicalItem::operator<` returns `dist >= o.dist`, so every item is less than itself and two candidates at equal distance are each less than the other | any candidate `c`: `c < c` holds, which breaks the strict weak ordering `std::priority_queue` requires | `dist > o.dist`, a min-heap on distance | not executed | HeapItems.CandidateLessAsWrittenIsReflexive | HeapItems.CandidateLessIsStrictWeakOrder |
