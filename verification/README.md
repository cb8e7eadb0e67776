# Proofs about the data structures, allocators and protocols of the stack

A Dafny model of the hand-written algorithms the training and RPC stack rests on, with proofs of what they
promise. `dafny verify dfyconfig.toml` checks the whole project. Code that changes state in the original is
modelled by classes and methods over the same fields, arrays and loops, each proved against a specification;
pure code is functions and lemmas.

- **Block quicksort** (`Bitset64`, `SmallSorts`, `BlockPartition`, `Quicksort`): the partition that keeps misplaced
  elements as bits of two 64-bit masks, the small sorts that write past a short segment's end, and why the whole
  array still ends up sorted: every cut (left side at most right side) outside a segment survives its sort. The recursion
  is recorded with the cost it charges: at most eight times n log n, one partition and the leaves, whatever the input.
- **d-ary heap** (`HeapOrder`, `ShortHeap`): push down and up, the unrolled form, top-k and the heap test, for any
  total preorder and out-degree. The arrays left behind are functions of the old arrays; order is proved of those.
- **Dense hash map** (`DenseLinks`, `DenseHashMap`): chains threaded by index through a vector refine a finite map.
  `DenseLinks` is the chain algebra: each node has exactly one link cell that points at it and a rank that grows
  along chains, through append, unlink, moving the last node and rehash over stale links. Bucket counts are the least ones.
- **Expiry queue** (`TimedMap`, `TimedRuns`, `ExpiryQueueDary`, `ExpiryQueueBinary`): both indexed heaps refine one abstract
  map from ids to items and times, whose contents and answers over whole runs follow from the calls alone; the loop that
  drains either returns the due items in time order.
- **Serializer** (`Checksum`, `Serializer`): schema-directed archives with a round trip by induction over schemas, into
  any object, unique decoding, the wire format, and a hash that any single changed byte changes.
- **Key-value funnel** (`FunnelStorage`, `FunnelChunks`, `BumpArena`, `KeyValueFunnel`, `FunnelRun`): per-key batching on a
  bump arena. What is pushed is exactly one batch per key for each stretch of `deliverable_cap` deliveries, so delivery is
  exactly once and in order per key; the arena cannot run out, the map never grows.
- **Scope allocator** (`StackScopes`, `StackAllocator`): nested scopes over doubling segments; every block lies at the first
  fit, and no two live ones overlap.
- **Layered allocator** (`BufferLedger`, `AllocatorSteps`, `GlobalAllocator`, `AllocLayout`, `HeaderMemory`): shards of
  bucket lists below, a cache per thread above. `AllocatorSteps` is the allocator as a step machine: shard critical
  sections and the moves of each thread's cache, interleaved in any order. Every run keeps every buffer at exactly one
  place and hands none out twice, and each shard makes only as many buffers as were away from its lists at once. The
  methods of `GlobalAllocator` take those steps one by one, and between any two of them the other threads may run on;
  each contract says what becomes of the thread's own view. `HeaderMemory` follows the header bytes in one memory over
  the same runs: they lead every buffer home, whatever users write into their blocks.
- **Connectivity** (`ConnectionControl`, `SlaveLiveness`, `SlaveWorstCase`, `MasterLiveness`, `ConnectionLiveness`): the
  registry, the two daemons as step machines over a clock, exactly when each is alive, exactly how long the loss of a
  topic takes to reach the slave, and how soon a silent slave brings its topic down.
- **Bounded queue** (`QueueSteps`, `BoundedQueue`): push, pop and poison as atomic steps; no item is lost before a poison, no
  wake-up ever, and nobody who waits is overtaken by one who waits for the same.

`PowersOfTwo`, `Rearranging` and `Options` are shared vocabulary.

## Where code and documentation differ

- The note at connectivity_subsystem/connectivity_subsystem.h:19-22 promises that a remote resource is closed one
  timeout after the master is gone. That holds in every run if and only if the timeout, the absolute timeout or the
  pacing period is zero (`SlaveWorstCase.OneTimeoutIff`). What `update()` does give is exactly `SlaveLiveness.Worst`
  (`SlaveWorstCase.DeadByIff`): two timeouts, three pacing periods and one update, less two ticks, for timeouts above the
  pacing period (`SlaveLiveness.WorstIsTwoTimeouts`).
- Connection ids come from a 32-bit counter that wraps: an opening is fresh exactly before the first wrap
  (`ConnectionControl.OpenIsFreshUntilWrap`), and what depends on ids not being reused says so.
- The bounded queue is not first in, first out: a parked pusher's item overtakes the buffer. A pop serves the oldest
  item exactly when no pusher is parked behind a buffer with something in it (`QueueSteps.PopServesOldest`).

## Conventions

Addresses, sizes, times and counters are unbounded unless a module says otherwise; the sort's cost counters, the
hash, the connection counter and the 32-bit headers are bounded as in the source. Two hardware idioms are written
arithmetically: a hash masked by a power-of-two bucket count is a remainder, and aligning an address by masks is
rounding up to a multiple. Randomness, clock readings, memory limits, ping outcomes and iteration order of hashed
containers are parameters, so the theorems hold for all of them. `place`, `home`, `parent`, `rank`, `contents`, `live`,
`marks`, `delivered`, `run`, `blocked` and the like record what the proofs talk about and steer nothing.

## Model

| member | source | states |
|---|---|---|
| `PowersOfTwo.ULog2` | algorithm_extension/sort_variants.h:45-48 | the exponent of the greatest power of two not above the argument |
| `PowersOfTwo.Ceil2` | algorithm_extension/sort_variants.h:51-59 | a power of two, at least the argument and less than twice it |
| `PowersOfTwo.Ceil2Least` | algorithm_extension/sort_variants.h:51-59 | no smaller power of two covers the argument |
| `PowersOfTwo.Ceil2OfPow2` | algorithm_extension/sort_variants.h:51-59 | powers of two are fixed points of the rounding |
| `PowersOfTwo.AlignUp` | funnel/funnel.h:478-483 | the first multiple of the alignment at or after an address, less than one alignment away |
| `Bitset64.ClearLowest` | algorithm_extension/sort_variants.h:310-318 | `x & (x - 1)` clears exactly the lowest set bit |
| `Bitset64.CountrZero` | algorithm_extension/sort_variants.h:310-318 | the index of the lowest set bit, with none below it |
| `Bitset64.BitAnd` | algorithm_extension/sort_variants.h:222-246 | the bits of a conjunction are those of both words |
| `Bitset64.SetBit` | algorithm_extension/sort_variants.h:222-246 | or-ing a power of two sets that bit and no other |
| `SmallSorts.TemplateSortSorts` | algorithm_extension/sort_variants.h:82-108 | the min/max callback recursion yields a sorted permutation of its arguments |
| `SmallSorts.TemplateSortArr` | algorithm_extension/sort_variants.h:110-129 | a fixed-size window becomes sorted, is permuted, and nothing else changes |
| `SmallSorts.InsertionSort1` | algorithm_extension/sort_variants.h:62-79 | the segment is sorted, permuted, the rest untouched |
| `SmallSorts.WindowStep` | algorithm_extension/sort_variants.h:152-163 | sorting a sliding five-element window moves the one misplaced element to the window's front and leaves everything else in order |
| `SmallSorts.AtMostOneBelow` | algorithm_extension/sort_variants.h:152-163 | among values of which only one may lie below a bound, a permutation cannot have two below it |
| `SmallSorts.SlideDown` | algorithm_extension/sort_variants.h:148-163 | the five-element windows slid downwards extend the sorted prefix by one |
| `SmallSorts.InsertionSort2` | algorithm_extension/sort_variants.h:134-164 | the segment is sorted, permuted, the rest untouched |
| `SmallSorts.BoundlessInsertionSort` | algorithm_extension/sort_variants.h:175-215 | the segment widened to at least five elements is sorted and permuted, although it may run past `last`; nothing beyond that window changes |
| `BlockPartition.ExtractGreaterEqFromLeft` | algorithm_extension/sort_variants.h:222-233 | bit b of the mask is set iff the b-th element from the right end of the stretch is at least the pivot |
| `BlockPartition.ExtractLesserFromRight` | algorithm_extension/sort_variants.h:235-246 | bit b of the mask is set iff the b-th element of the stretch is below the pivot |
| `BlockPartition.ExtractGreaterEqBlock` | algorithm_extension/sort_variants.h:261-277 | the unrolled 64-element form gives the same mask |
| `BlockPartition.ExtractLesserBlock` | algorithm_extension/sort_variants.h:279-295 | the unrolled 64-element form, complemented, gives the mask of lesser elements |
| `BlockPartition.SwapPair` | algorithm_extension/sort_variants.h:310-318 | swapping the elements of the lowest set bits and clearing both bits keeps both masks exact and everything outside the blocks on its side |
| `BlockPartition.DrainPairs` | algorithm_extension/sort_variants.h:310-318 | after draining, one mask is empty, both are exact, and the segment is permuted with the pivot in place |
| `BlockPartition.RefilledLeft` | algorithm_extension/sort_variants.h:324-327 | a fresh left mask extends the partition invariant by its block |
| `BlockPartition.RefilledRight` | algorithm_extension/sort_variants.h:327-330 | a fresh right mask extends the partition invariant by its block |
| `BlockPartition.FillBlocks` | algorithm_extension/sort_variants.h:302-331 | the block loop keeps the partition invariant and stops with fewer than 64 unread elements and one empty mask |
| `BlockPartition.FillRemainder` | algorithm_extension/sort_variants.h:333-351 | the last short blocks close the gap between the two sides under the same invariant |
| `BlockPartition.MoveLeftovers` | algorithm_extension/sort_variants.h:359-367 | misplaced elements left in the left mask move to the boundary, which ends up splitting the segment |
| `BlockPartition.MoveRightLeftovers` | algorithm_extension/sort_variants.h:373-381 | the same for the right mask |
| `BlockPartition.MoveEither` | algorithm_extension/sort_variants.h:359-386 | whichever mask is left over, its elements move to the boundary, with the pivot value still parked at the end |
| `BlockPartition.PlacePivot` | algorithm_extension/sort_variants.h:359-388 | whichever mask is left over, the pivot lands between lesser and greater-or-equal elements |
| `BlockPartition.PivotPartition` | algorithm_extension/sort_variants.h:297-389 | for every segment and pivot: everything before the returned place is less than the pivot, everything after at least it, the pivot is there, the segment is permuted and nothing else changes |
| `Quicksort.SortedWindowKeepsCuts` | algorithm_extension/sort_variants.h:175-215 | a window sorted across a short segment's end keeps every left-side-at-most-right-side cut at or outside the segment, and what lies on each side of it |
| `Quicksort.RearrangedKeepsCuts` | algorithm_extension/sort_variants.h:409-424 | rearranging inside a segment keeps every cut outside it |
| `Quicksort.SplitCuts` | algorithm_extension/sort_variants.h:419-424 | a partition between two cuts yields cuts on both sides of the pivot |
| `Quicksort.JoinSorted` | algorithm_extension/sort_variants.h:426-430 | left half, pivot and right half are one sorted stretch although the right half's sort may write past its end |
| `Quicksort.BaseQuicksort` | algorithm_extension/sort_variants.h:391-432 | between two cuts the segment gets sorted, all outer cuts and their sides are kept, every access is inside the array, and the recursion ends, charging each call and choosing the fallback as the source does, with counters of 64 bits |
| `Quicksort.SortSmall` | algorithm_extension/sort_variants.h:397-407 | short segments: the boundless sort where it stays in the array, else the bounded one, with the same contract |
| `Quicksort.MedianPartition` | algorithm_extension/sort_variants.h:415-424 | the median-of-three partition splits strictly inside the segment and cuts on both sides |
| `Quicksort.Quicksort` | algorithm_extension/sort_variants.h:434-450 | the array is sorted and has the same multiset of values; the recursion is one that starts with the source's budget |
| `Quicksort.WrappedIsMod` | algorithm_extension/sort_variants.h:434-450 | the counters count modulo 2^64 |
| `Quicksort.WorkIsBounded` | algorithm_extension/sort_variants.h:391-432 | at every call of a recursion whose counters do not wrap: what is charged is the work done, at most the budget, one partition more and the shares of the leaves; the fallback is taken only with the budget spent or at the greatest depth |
| `Quicksort.SortIsBounded` | algorithm_extension/sort_variants.h:391-450 | so a sort of n elements is charged at least n and at most eight times n log n, one partition more and the leaves' shares, and takes the fallback for no other reason |
| `HeapOrder.BestChildIsBest` | algorithm_extension/short_heap.h:119-135 | the candidate scan finds a child no other child is better than |
| `HeapOrder.PushDownRepairs` | algorithm_extension/short_heap.h:102-147 | pushing down from the one place where order may fail restores the heap below `root`, for any total preorder and out-degree |
| `HeapOrder.PushUpRepairs` | algorithm_extension/short_heap.h:208-235 | pushing up the one element that may be better than its parent restores the heap |
| `HeapOrder.RootIsBest` | algorithm_extension/short_heap.h:266-284 | no element of a heap is better than its root |
| `ShortHeap.PushDownHeap` | algorithm_extension/short_heap.h:102-147 | leaves the array of the push-down specification |
| `ShortHeap.FastPushDownHeap` | algorithm_extension/short_heap.h:160-206 | the unrolled form leaves the same array as the plain one |
| `ShortHeap.PushUpHeap` | algorithm_extension/short_heap.h:208-235 | leaves the array of the push-up specification |
| `ShortHeap.PushDownKeepsValues` | algorithm_extension/short_heap.h:102-147 | the same values, and nothing past the heap changes |
| `ShortHeap.PushUpKeepsValues` | algorithm_extension/short_heap.h:208-235 | the same values, and nothing past the heap changes |
| `ShortHeap.HeapifiedIsHeap` | algorithm_extension/short_heap.h:237-264 | after k rounds everything from the k-th last parent on is in heap order |
| `ShortHeap.HeapifiedKeepsValues` | algorithm_extension/short_heap.h:237-264 | the rounds keep the multiset of values, and nothing past the heap changes |
| `ShortHeap.MakeHeap` | algorithm_extension/short_heap.h:237-264 | the array becomes a heap, a permutation, and the rest is untouched |
| `ShortHeap.PopHeap` | algorithm_extension/short_heap.h:266-284 | leaves the array of the pop specification |
| `ShortHeap.PoppedKeepsValues` | algorithm_extension/short_heap.h:266-284 | the old root ends up behind the heap, the values are the same, the rest is untouched |
| `ShortHeap.PoppedIsHeap` | algorithm_extension/short_heap.h:266-284 | what is left is a heap of one element less |
| `ShortHeap.PushHeap` | algorithm_extension/short_heap.h:286-298 | a heap and one more element behind it become one heap, a permutation |
| `ShortHeap.TopTakenSplits` | algorithm_extension/short_heap.h:300-320 | k pops leave the k best behind, worst to best, and the rest a heap |
| `ShortHeap.TopTakenKeepsValues` | algorithm_extension/short_heap.h:300-320 | k pops keep the multiset of values, and nothing past the heap changes |
| `ShortHeap.PopExtendsSplit` | algorithm_extension/short_heap.h:300-320 | one more pop extends the split by one |
| `ShortHeap.TopK` | algorithm_extension/short_heap.h:300-320 | returns the remaining size, with the best elements in the suffix from worst to best, the prefix a heap, a permutation |
| `ShortHeap.SortHeap` | algorithm_extension/short_heap.h:322-331 | every later element is at least as good as every earlier one, a permutation |
| `ShortHeap.RootOrderIsHeapOrder` | algorithm_extension/short_heap.h:37-81 | order checked down from the root is order of every non-root element with its parent |
| `ShortHeap.IsHeapAt` | algorithm_extension/short_heap.h:37-81 | true iff everything below the index is in order with its parent |
| `ShortHeap.IsHeap` | algorithm_extension/short_heap.h:83-100 | true iff every non-root index is in order with its parent |
| `DenseLinks.LinkedOnce` | dg_heap/dg_dense_hash_map.h:757-781 | every storage index is pointed at by exactly one bucket or next slot |
| `DenseLinks.Acyclic` | dg_heap/dg_dense_hash_map.h:757-781 | following links never returns to where it started |
| `DenseLinks.PathStep` | dg_heap/dg_dense_hash_map.h:757-781 | a lookup that has not reached a node with the key yet still has it ahead |
| `DenseLinks.WalkStep` | dg_heap/dg_dense_hash_map.h:757-781 | each step stays in the bucket's chain and comes closer to its end |
| `DenseLinks.AppendKeepsLinks` | dg_heap/dg_dense_hash_map.h:794-811 | linking a new last node into an empty cell of its bucket keeps the chains |
| `DenseLinks.UnlinkLeavesHole` | dg_heap/dg_dense_hash_map.h:826-855 | unlinking a node leaves chains that reach every node but it |
| `DenseLinks.MoveLastFillsHole` | dg_heap/dg_dense_hash_map.h:826-855 | moving the last node into the hole and redirecting its one link restores the chains |
| `DenseLinks.ExchangeErases` | dg_heap/dg_dense_hash_map.h:826-855 | the code's two writes and the swap do that, also when the last node is the erased node's predecessor or successor |
| `DenseLinks.UnlinkErases` | dg_heap/dg_dense_hash_map.h:826-855 | erasing the last node needs only the unlinking |
| `DenseHashMap.BucketCountCoversSize` | dg_heap/dg_dense_hash_map.h:626-640 | a table built for n elements holds n nodes without growing |
| `DenseHashMap.CapacityCoversSize` | dg_heap/dg_dense_hash_map.h:728-750 | capacity derived from a size admits that size |
| `DenseHashMap.BucketCountIsLeast` | dg_heap/dg_dense_hash_map.h:369-379 | the bucket count is the least power of two that is admitted and not below what was asked |
| `DenseHashMap.CapacityIsLoad` | dg_heap/dg_dense_hash_map.h:729-732 | the capacity is exactly the load factor's share of the buckets |
| `DenseHashMap.GrowsIffTooFew` | dg_heap/dg_dense_hash_map.h:457-468 | the bucket count asked for a size exceeds what is there iff the capacity is below that size, and half of it would be too few |
| `DenseHashMap.BucketCountForSizeIsLeast` | dg_heap/dg_dense_hash_map.h:626-640 | half the buckets of a table built for n elements would be too few for them |
| `DenseHashMap.MaxSizeWithinCapacity` | dg_heap/dg_dense_hash_map.h:657-660 | a size up to the maximum never asks for more than the greatest bucket count |
| `DenseHashMap.DoublingGrows` | dg_heap/dg_dense_hash_map.h:797-799 | doubling the buckets makes room for at least one more node, at every load factor |
| `DenseHashMap.DenotesUnique` | dg_heap/dg_dense_hash_map.h:783-792 | a node vector stands for at most one finite map |
| `DenseHashMap.EraseDenotes` | dg_heap/dg_dense_hash_map.h:826-855 | a vector with the last entry moved into the erased place stands for the map without that key |
| `DenseHashMap.UnorderedNodeMap.Create` | dg_heap/dg_dense_hash_map.h:369-379 | throws iff the rounded bucket count is too large, else an empty map of that many buckets |
| `DenseHashMap.UnorderedNodeMap.FindBucketReference` | dg_heap/dg_dense_hash_map.h:757-781 | the one cell that points at the key's node, or the empty end of its bucket's chain iff the key is absent |
| `DenseHashMap.UnorderedNodeMap.Find` | dg_heap/dg_dense_hash_map.h:783-792 | the entry of a present key, the end for an absent one |
| `DenseHashMap.UnorderedNodeMap.Rehash` | dg_heap/dg_dense_hash_map.h:418-455 | the same finite map and node order under the new bucket count; refused iff that is too large |
| `DenseHashMap.UnorderedNodeMap.RelinkOne` | dg_heap/dg_dense_hash_map.h:437-452 | linking node i into chains of the first i nodes, over links that are still stale, gives chains of i + 1 nodes |
| `DenseHashMap.UnorderedNodeMap.RelinkAll` | dg_heap/dg_dense_hash_map.h:430-454 | the index loop builds chains of the same map |
| `DenseHashMap.UnorderedNodeMap.Reserve` | dg_heap/dg_dense_hash_map.h:457-468 | the map and every entry's place are unchanged; refused iff the size is above the maximum; else the capacity is at least the requested size, with the same buckets where it was so before, and with the least bucket count that will do where it was not |
| `DenseHashMap.UnorderedNodeMap.Insert` | dg_heap/dg_dense_hash_map.h:794-811 | adds an absent key as last node, leaves a present one; below the storage capacity it does not rehash, at it the buckets double exactly; no entry moves; fails only at the maximum |
| `DenseHashMap.UnorderedNodeMap.InsertOrAssign` | dg_heap/dg_dense_hash_map.h:813-824 | the map updated at the key, with the place of the entry, which is the last one iff the key was absent; fails exactly where an insertion does, with nothing changed |
| `DenseHashMap.UnorderedNodeMap.Clear` | dg_heap/dg_dense_hash_map.h:518-524 | the empty map with the same buckets |
| `DenseHashMap.UnorderedNodeMap.EraseKey` | dg_heap/dg_dense_hash_map.h:826-855 | removes exactly that key, reporting whether it was there, and keeps chains, single links and home buckets in every aliasing case |
| `DenseHashMap.UnorderedNodeMap.EraseIter` | dg_heap/dg_dense_hash_map.h:857-868 | removes the entry at the iterator; the last entry takes its place |
| `DenseHashMap.UnorderedNodeMap.EraseIf` | dg_heap/dg_dense_hash_map.h:908-923 | terminates and keeps exactly the entries failing the predicate |
| `DenseHashMap.Equals` | dg_heap/dg_dense_hash_map.h:870-890 | true iff the two finite maps are equal |
| `ExpiryQueueDary.TemporalOrderedItemMap2.SwapHeapNode` | internal_rest/network_ack_expiry_queue.h:561-566 | swaps two nodes and keeps every back index pointing at its node |
| `ExpiryQueueDary.TemporalOrderedItemMap2.CorrectHeapNodeUpAt` | internal_rest/network_ack_expiry_queue.h:633-658 | moves a node up; index and contents stay, and order can only fail below it |
| `ExpiryQueueDary.TemporalOrderedItemMap2.FindCandidate` | internal_rest/network_ack_expiry_queue.h:660-706 | a child no child is earlier than, or none exactly at a leaf |
| `ExpiryQueueDary.TemporalOrderedItemMap2.CorrectHeapNodeDownAt` | internal_rest/network_ack_expiry_queue.h:660-706 | moves a node down and restores the heap order |
| `ExpiryQueueDary.TemporalOrderedItemMap2.CorrectHeapNodeAt` | internal_rest/network_ack_expiry_queue.h:708-712 | restores the heap order after one time changed either way |
| `ExpiryQueueDary.TemporalOrderedItemMap2.DecommissionBackHeapNode` | internal_rest/network_ack_expiry_queue.h:601-621 | drops the last live slot and its id |
| `ExpiryQueueDary.TemporalOrderedItemMap2.EraseHeapNodeAt` | internal_rest/network_ack_expiry_queue.h:714-734 | removes that id and no other from the timed map, in any slot including the last |
| `ExpiryQueueDary.TemporalOrderedItemMap2.EnqueueBackHeapNode` | internal_rest/network_ack_expiry_queue.h:568-599 | a new last node under its id, in order but for its parent |
| `ExpiryQueueDary.TemporalOrderedItemMap2.Add` | internal_rest/network_ack_expiry_queue.h:419-449 | refines the abstract add: capacity, duplicate id, or the id bound to item and time |
| `ExpiryQueueDary.TemporalOrderedItemMap2.Update` | internal_rest/network_ack_expiry_queue.h:451-467 | refines the abstract update: unknown id, or that id's time replaced |
| `ExpiryQueueDary.TemporalOrderedItemMap2.AddOrUpdate` | internal_rest/network_ack_expiry_queue.h:469-479 | refines the abstract add-or-update |
| `ExpiryQueueDary.TemporalOrderedItemMap2.Erase` | internal_rest/network_ack_expiry_queue.h:481-493 | the timed map without the id |
| `ExpiryQueueDary.TemporalOrderedItemMap2.GetExpiredItem` | internal_rest/network_ack_expiry_queue.h:495-525 | refines the abstract expiry: an earliest entry below the bar and its removal, or nothing iff there is none |
| `ExpiryQueueDary.TemporalOrderedItemMap2.HasExpiredItem` | internal_rest/network_ack_expiry_queue.h:527-542 | true iff some entry's time is below the bar |
| `ExpiryQueueDary.TemporalOrderedItemMap2.FrontIsEarliest` | internal_rest/network_ack_expiry_queue.h:495-542 | the root's time is least |
| `ExpiryQueueBinary.TemporalOrderedItemMap.SwapHeapNode` | internal_rest/network_ack_expiry_queue.h:193-198 | swaps two nodes and keeps every back index pointing at its node |
| `ExpiryQueueBinary.TemporalOrderedItemMap.CorrectHeapNodeUpAt` | internal_rest/network_ack_expiry_queue.h:206-231 | moves a node up; index and contents stay, and order can only fail below it |
| `ExpiryQueueBinary.TemporalOrderedItemMap.CorrectHeapNodeDownAt` | internal_rest/network_ack_expiry_queue.h:233-263 | moves a node down and restores the heap order |
| `ExpiryQueueBinary.TemporalOrderedItemMap.CorrectHeapNodeAt` | internal_rest/network_ack_expiry_queue.h:265-278 | restores the heap order after one time changed either way |
| `ExpiryQueueBinary.TemporalOrderedItemMap.EraseHeapNodeAt` | internal_rest/network_ack_expiry_queue.h:310-335 | removes that id and no other from the timed map, in any slot including the last |
| `ExpiryQueueBinary.TemporalOrderedItemMap.PopHeapNode` | internal_rest/network_ack_expiry_queue.h:337-361 | removes the earliest entry's id |
| `ExpiryQueueBinary.TemporalOrderedItemMap.AddHeapNode` | internal_rest/network_ack_expiry_queue.h:281-308 | a node for a new id, in heap order |
| `ExpiryQueueBinary.TemporalOrderedItemMap.Add` | internal_rest/network_ack_expiry_queue.h:52-79 | refines the abstract add: capacity, duplicate id, or the id bound to item and time |
| `ExpiryQueueBinary.TemporalOrderedItemMap.Update` | internal_rest/network_ack_expiry_queue.h:82-96 | refines the abstract update: unknown id, or that id's time replaced |
| `ExpiryQueueBinary.TemporalOrderedItemMap.AddOrUpdate` | internal_rest/network_ack_expiry_queue.h:98-108 | refines the abstract add-or-update |
| `ExpiryQueueBinary.TemporalOrderedItemMap.Erase` | internal_rest/network_ack_expiry_queue.h:110-122 | the timed map without the id |
| `ExpiryQueueBinary.TemporalOrderedItemMap.GetExpiredItem` | internal_rest/network_ack_expiry_queue.h:124-145 | refines the abstract expiry: an earliest entry below the bar and its removal, or nothing iff there is none |
| `ExpiryQueueBinary.TemporalOrderedItemMap.HasExpiredItem` | internal_rest/network_ack_expiry_queue.h:147-162 | true iff some entry's time is below the bar |
| `ExpiryQueueBinary.TemporalOrderedItemMap.FrontIsEarliest` | internal_rest/network_ack_expiry_queue.h:124-162 | the root's time is least |
| `ExpiryQueueDary.SwapKeepsContents` | internal_rest/network_ack_expiry_queue.h:561-566 | a swap of live slots keeps the bijection between ids and slots and the timed map |
| `ExpiryQueueDary.AppendNode` | internal_rest/network_ack_expiry_queue.h:568-599 | filling the next slot adds one id to the timed map |
| `ExpiryQueueDary.Reschedule` | internal_rest/network_ack_expiry_queue.h:451-467 | writing a time changes that id's entry only |
| `ExpiryQueueDary.DropLastNode` | internal_rest/network_ack_expiry_queue.h:601-621 | emptying the last live slot removes its id only |
| `ExpiryQueueBinary.RemovedLists` | internal_rest/network_ack_expiry_queue.h:310-335 | replacing a slot by the last entry lists the timed map without that id |
| `ExpiryQueueBinary.RemovedOrder` | internal_rest/network_ack_expiry_queue.h:310-335 | order can then fail at that slot only |
| `TimedRuns.HoldsScheduled` | internal_rest/network_ack_expiry_queue.h:419-525 | over every run of calls the queue holds exactly the ids that were scheduled and not erased or expired since, each with the time last set for it and the item it came in with, and never more than it has room for |
| `TimedRuns.AnswersFollowCalls` | internal_rest/network_ack_expiry_queue.h:419-525 | so every answer is as the calls before it demand: added iff not there and there is room, updated iff there; what expires has the earliest time set and is below the bar, and nothing does iff no time set is below it |
| `TimedMap.TakenOneMore` | internal_rest/network_ack_expiry_queue.h:495-525 | one more expiry after those before keeps: what was taken is due, in time order, and what is left is the rest of the map, none of it earlier |
| `TimedMap.DrainReturnsDue` | internal_rest/network_ack_expiry_queue.h:495-525 | when the repeated expiry finds nothing more it has returned exactly the entries below the bar in nondecreasing time order and left every other id and time |
| `ExpiryQueueDary.TemporalOrderedItemMap2.DrainExpired` | internal_rest/network_kernel_mailbox_impl1.h:3288-3307 | the draining loop of the retransmission controller, over the d-ary heap: with room left, all due items in time order and exactly the others kept, else the earliest of the due items |
| `ExpiryQueueBinary.TemporalOrderedItemMap.DrainExpired` | internal_rest/network_kernel_mailbox_impl1.h:3288-3307 | the same loop over the binary heap, where the controller has it |
| `Checksum.LoadDump` | dg_heap/serialization.h:206-227 | loading a dumped word gives it back |
| `Checksum.LoadInjective` | dg_heap/serialization.h:216-227 | different bytes load to different words |
| `Checksum.LoadChange` | dg_heap/serialization.h:216-227 | changing byte i changes the word by the difference times 256^i |
| `Checksum.SumWords` | dg_heap/serialization.h:264-272 | the 64-bit word loop computes the modular sum without wrapping |
| `Checksum.SumBytes` | dg_heap/serialization.h:249-253 | the byte checksum, modulo 2^64, of a stretch of any length |
| `Checksum.ComputeHash` | dg_heap/serialization.h:255-278 | the loops compute the hash specification |
| `Checksum.HashWordsIsSum` | dg_heap/serialization.h:264-272 | the running total is the sum of the words modulo 2^63 - 1 |
| `Checksum.HashIsSum` | dg_heap/serialization.h:255-278 | the hash is the sum of the words modulo 2^63 - 1 and beside it that of the last bytes |
| `Checksum.NoMultiple` | dg_heap/serialization.h:255-278 | a nonzero byte difference times a power of 256 is never a multiple of 2^63 - 1 |
| `Checksum.WordChangeShows` | dg_heap/serialization.h:264-272 | one changed byte among the words changes their total |
| `Checksum.TailChangeShows` | dg_heap/serialization.h:274-278 | one changed byte of the tail changes its checksum |
| `Checksum.HashDetectsByteChange` | dg_heap/serialization.h:255-278 | changing any single byte changes the hash, at any length |
| `Serializer.ParseBytes` | dg_heap/serialization.h:319-484 | by induction over schemas: reading where a value's bytes stand, in any buffer, at any position and into any object, merges the value into the object and ends right after them, whatever the iteration order of each single hashed container in the value, equal ones included |
| `Serializer.Rejoined` | dg_heap/serialization.h:281-300 | inserting the visited elements one by one, whatever the order, appends to a vector, unites sets, and adds to a map the pairs whose key it lacks |
| `Serializer.MergedFresh` | dg_heap/serialization.h:378-444 | merged into a default-constructed object, a value is itself again |
| `Serializer.Dump` | dg_heap/serialization.h:206-214 | writes a number's bytes at the position and nothing else |
| `Serializer.Put` | dg_heap/serialization.h:319-375 | writes exactly the value's bytes at the position and advances past them, all other bytes kept |
| `Serializer.PutNillable` | dg_heap/serialization.h:334-341 | a presence byte, then the value if any |
| `Serializer.PutFields` | dg_heap/serialization.h:344-374 | the members of a tuple or reflected struct in order |
| `Serializer.PutAll` | dg_heap/serialization.h:355-363 | the elements of a container in iteration order |
| `Serializer.Get` | dg_heap/serialization.h:377-444 | makes of the object what the parse specification says, or reports the end of the buffer |
| `Serializer.GetFields` | dg_heap/serialization.h:406-415 | the members in order |
| `Serializer.GetAll` | dg_heap/serialization.h:417-433 | as many elements as announced, inserted one by one |
| `Serializer.RoundTrip` | dg_heap/serialization.h:463-484 | `deserialize` after `serialize` merges the value into the given object, gives it back if the object was default-constructed, and returns the same end position, from any position |
| `Serializer.UniquelyDecodable` | dg_heap/serialization.h:319-375 | no value's bytes are, or start, another's of the same schema, whatever the iteration orders they were written in |
| `Serializer.NumberFormat` | dg_heap/serialization.h:206-214 | numbers are little-endian in their width |
| `Serializer.NillableFormat` | dg_heap/serialization.h:334-341 | a value that is there has the byte one in front, one that is not is the byte zero |
| `Serializer.RecordFormat` | dg_heap/serialization.h:344-374 | members follow each other in order, without padding |
| `Serializer.VectorFormat` | dg_heap/serialization.h:355-363 | eight bytes of length stand in front of the elements, which follow in order |
| `Serializer.CountOf` | dg_heap/serialization.h:449-461 | `count` is the number of bytes written |
| `Serializer.SealedIsIntact` | dg_heap/serialization.h:492-523 | a sealed buffer passes the integrity check |
| `Serializer.ChangedByteIsNoticed` | dg_heap/serialization.h:492-523 | a sealed buffer with any one byte changed, in the hash or the data, fails the check |
| `Serializer.IntegritySerialize` | dg_heap/serialization.h:492-504 | writes the hash in front of the value's bytes and returns the end |
| `Serializer.IntegrityDeserialize` | dg_heap/serialization.h:506-523 | reports corruption iff the buffer is shorter than a hash or the hash differs, else parses the data |
| `Serializer.IntegrityRoundTrip` | dg_heap/serialization.h:492-523 | a sealed value is intact and parses back whole, into any object |
| `FunnelStorage.GotExtended` | funnel/funnel.h:860-942 | an event at the end of its key's batch is the last of that key's events and of no other's |
| `FunnelStorage.TakenByRest` | funnel/funnel.h:496-511 | containers ever taken for events a_1, a_2, ... amount to the sum of 2*ceil2(a_k) - 1, at most four slots an event less three a key |
| `FunnelStorage.RoomForKey` | funnel/funnel.h:873-889 | a first container for one more key fits below 4 * deliverable_cap, and keys never exceed deliverable_cap |
| `FunnelStorage.RoomForDouble` | funnel/funnel.h:907-936 | doubling a full container fits below 4 * deliverable_cap |
| `FunnelStorage.PushFits` | funnel/funnel.h:696-708 | a container filled one by one keeps capacity ceil2 of its size |
| `FunnelStorage.DoubleFits` | funnel/funnel.h:907-936 | a doubled container has capacity ceil2 of its size plus one |
| `FunnelStorage.KeyAdded` | funnel/funnel.h:873-905 | a fresh container shares no slot with the others and adds one empty batch behind those pending, which stay |
| `FunnelStorage.Doubled` | funnel/funnel.h:907-936 | growth moves a key's events without changing any pending batch |
| `FunnelStorage.EventPushed` | funnel/funnel.h:939-941 | exactly the batch at that container becomes one event longer, containers still disjoint |
| `FunnelChunks.PhaseFlushed` | funnel/funnel.h:836-852 | once the pending batches are pushed, what the consumer has under each key is every event delivered so far, in order |
| `FunnelChunks.PhasePassedOn` | funnel/funnel.h:863-869 | with capacity zero an event goes straight to the consumer, still in order |
| `FunnelChunks.GroupedIsOneBatchPerKey` | funnel/funnel.h:860-942 | what a stretch of deliveries amounts to is one batch for each key that has events and no other, with exactly its events in order, the keys in the order of their first events |
| `FunnelChunks.GroupedAccounts` | funnel/funnel.h:836-852 | those batches account for every event of the stretch |
| `FunnelChunks.PushedInChunks` | funnel/funnel.h:857-981 | deliveries one by one, each pushing what it must, then a last flush, push exactly the batches of the stretches of `deliverable_cap` events, one stretch after the other |
| `FunnelChunks.ReadyInNew` | funnel/funnel.h:873-905 | a first container gives a key its place behind the others, with every pending batch as before |
| `FunnelChunks.ReadyInDouble` | funnel/funnel.h:907-936 | a doubled container gives its key room, with every pending batch as before |
| `FunnelChunks.RestsWithEvent` | funnel/funnel.h:939-941 | the event written joins its key's pending batch and no other |
| `BumpArena.SlotsFit` | funnel/funnel.h:650-665 | four slots per deliverable event lie in the byte budget after alignment of any head, each at an aligned address |
| `BumpArena.BumpAllocatorResource.Allocate` | funnel/funnel.h:460-472 | refuses iff the cursor would pass the capacity, else hands out the cursor's address and advances it |
| `BumpArena.BumpAllocatorResource.Align` | funnel/funnel.h:474-494 | advances by what the head lacks to an aligned address, or refuses iff that passes the capacity |
| `BumpArena.EventArena.Allocate` | funnel/funnel.h:871-940 | the exhaustion branches are never taken: an allocation within four slots an event succeeds at the next slot |
| `BumpArena.EventArena.Reset` | funnel/funnel.h:848-850 | the cursor returns to the first aligned address |
| `BumpArena.EventArena.MakeContainer` | funnel/funnel.h:674-684 | a fresh container above all others, which keep their events |
| `BumpArena.EventArena.DoubleContainer` | funnel/funnel.h:923-936 | twice the room above all others, with the events moved in order |
| `FunnelStorage.SentUnbatched` | funnel/funnel.h:839-845 | what a consumer holds is accounted for as events delivered before |
| `KeyValueFunnel.KVDeliveryHandle.constructor` | funnel/funnel.h:753-823 | a handle with nothing pending, on a map that never has to grow and a consumer that may hold batches already |
| `KeyValueFunnel.KVDeliveryHandle.PushAll` | funnel/funnel.h:839-845 | one push per key, in storage order, with exactly its pending events |
| `KeyValueFunnel.KVDeliveryHandle.Clear` | funnel/funnel.h:836-852 | pushes exactly the pending batches; the consumer then has every delivered event under its key in order; arena and map empty |
| `KeyValueFunnel.KVDeliveryHandle.AddKey` | funnel/funnel.h:873-905 | a first container for an absent key, without arena exhaustion or map growth |
| `KeyValueFunnel.KVDeliveryHandle.Grow` | funnel/funnel.h:907-936 | a full container replaced by one twice as large with the same events, without arena exhaustion |
| `KeyValueFunnel.KVDeliveryHandle.PushEvent` | funnel/funnel.h:939-941 | the event is pending last in its key's batch, which is the last one if it is new, and counted |
| `KeyValueFunnel.KVDeliveryHandle.DeliverSlowPath` | funnel/funnel.h:857-941 | below capacity nothing is pushed and the event joins the pending ones; at a positive capacity exactly one batch per pending key is pushed and the event alone is pending; at capacity zero the event alone is pushed; all stay accounted for, and the map's buckets never change |
| `KeyValueFunnel.KVDeliveryHandle.FlushAndDeliver` | funnel/funnel.h:862-869 | the flush at capacity, then the event as the only one pending |
| `KeyValueFunnel.KVDeliveryHandle.DeliverWithin` | funnel/funnel.h:873-941 | first container or growth where needed, then the event pending, with nothing pushed |
| `KeyValueFunnel.KVDeliveryHandle.Deliver` | funnel/funnel.h:943-957 | the same for every delivery, fast or slow: a flush happens at capacity and only there |
| `KeyValueFunnel.KVDeliveryHandle.Close` | funnel/funnel.h:972-981 | the last flush pushes one batch per pending key and leaves nothing pending |
| `KeyValueFunnel.BucketsCover` | funnel/funnel.h:758-758 | the bucket count asked for admits deliverable_cap + 1 keys |
| `FunnelRun.Feed` | funnel/funnel.h:753-981 | for any deliveries, any capacity, zero included, and whatever the consumer held: the batches pushed are exactly, for each stretch of `deliverable_cap` deliveries and what is left, one batch per key; for each key they concatenate to exactly its events in delivery order |
| `FunnelRun.DeliverAll` | funnel/funnel.h:943-957 | a run of deliveries is recorded in order and pushes exactly what its full stretches amount to |
| `StackScopes.SearchFindsFirst` | allocation_base/stack_allocator.h:178-218 | the place found is the first one where the block fits: the rest of the current segment and all segments passed are too small |
| `StackScopes.SearchFailsAtLimit` | allocation_base/stack_allocator.h:178-218 | the search fails iff the block fits neither the current rest nor the largest segment that is there already or can be had, also when memory has become scarcer than what is held |
| `StackScopes.SearchTakesNeeded` | allocation_base/stack_allocator.h:178-247 | segments are added up to the one the block goes to, no further |
| `StackScopes.SearchIsFirstFit` | allocation_base/stack_allocator.h:178-218 | in terms of places alone: the block goes where the point is if it fits, else to the front of the first later segment that is large enough; a failure means none is, up to the last to be had |
| `StackScopes.AllocatedIffCarved` | allocation_base/stack_allocator.h:108-125 | a call is one of the machine iff its block has the size asked for, lies at the first fit and ends at the new point, or its error leaves the point and says that there is no scope, or no fit |
| `StackScopes.SavedPointsStay` | allocation_base/stack_allocator.h:95-137 | a run that does not close a scope leaves its saved point alone |
| `StackScopes.ExitUndoesEnter` | allocation_base/stack_allocator.h:95-137 | whatever runs inside a scope, leaving it restores the point and the scopes of when it was entered |
| `StackScopes.AllocateHolds` | allocation_base/stack_allocator.h:108-125 | a new block lies in its segment, after all live blocks and the starts of all open scopes |
| `StackScopes.ExitHolds` | allocation_base/stack_allocator.h:127-136 | leaving a scope drops exactly its blocks; the rest stay ordered before the restored point |
| `StackScopes.LiveBlocksDisjoint` | allocation_base/stack_allocator.h:108-125 | blocks of still-open scopes are pairwise disjoint and inside their segments |
| `StackAllocator.SplitStackAllocator.EnterScope` | allocation_base/stack_allocator.h:95-176 | saves the point, or opens at the front of the first segment, reserving it when there is none; an error changes nothing and happens iff there is no segment and none to be had |
| `StackAllocator.SplitStackAllocator.Allocate` | allocation_base/stack_allocator.h:108-125 | the block has the size asked for, lies at the first fit from the old point and ends at the new one; an error leaves the point and means no scope, or no fit in any segment to be had; the block joins the live ones |
| `StackAllocator.SplitStackAllocator.SlowAllocate` | allocation_base/stack_allocator.h:178-218 | terminates with the search's result because segment i has 2^i bytes, so with the first fit; `BadState` before any scope |
| `StackAllocator.SplitStackAllocator.Reserve` | allocation_base/stack_allocator.h:220-247 | adds the missing segments, each twice the one before, or takes back those it added |
| `StackAllocator.SplitStackAllocator.ExitScope` | allocation_base/stack_allocator.h:127-136 | restores the point saved at the matching enter and forgets that scope's blocks |
| `BufferLedger.StoredOnce` | allocation_base/global_allocator.h:474-704 | no buffer is stored at two places, or twice at one |
| `BufferLedger.CarriedIsFiled` | allocation_base/global_allocator.h:474-704 | moving a buffer from one sequence to another keeps every buffer filed at exactly one place |
| `BufferLedger.ListWithinMade` | allocation_base/global_allocator.h:103-180 | a bucket's free list never outgrows the buffers made for it, and has room for one that is out |
| `BufferLedger.RoomInList` | allocation_base/global_allocator.h:78-94 | returning a buffer never exceeds its list's reservation |
| `BufferLedger.MakeKeepsBooks` | allocation_base/global_allocator.h:103-180 | a new buffer is counted, reserved for and apart from all others |
| `BufferLedger.TakeKeepsBooks` | allocation_base/global_allocator.h:65-75 | a buffer popped off its bucket's list |
| `BufferLedger.GiveKeepsBooks` | allocation_base/global_allocator.h:78-94 | a buffer returned goes to its own shard's and bucket's list |
| `GlobalAllocator.BucketIsLeast` | allocation_base/global_allocator.h:61-62 | the bucket index is the smallest, from five up, that holds the request and the header byte |
| `GlobalAllocator.LeastBucketIsCeil2` | allocation_base/global_allocator.h:61-62 | its buffers have max(32, ceil2) bytes |
| `GlobalAllocator.ExactBuffer` | allocation_base/global_allocator.h:847-850 | with the 1+4+1+1 or 1+1+1 header bytes a promoted request lands in a buffer of exactly max(32, ceil2(sz + 8)) bytes |
| `GlobalAllocator.PromotedSizes` | allocation_base/global_allocator.h:847-850 | promotion is at least the request, and zero only for zero |
| `AllocatorSteps.StepIsSound` | allocation_base/global_allocator.h:54-704 | whatever a thread does next, every buffer stays filed at exactly one place, apart from all others, with a header that leads it home, and every list, queue and free vector within its room; queues in use and spare stay 64 |
| `AllocatorSteps.RunIsSound` | allocation_base/global_allocator.h:54-704 | so in every run of the threads' steps, in any interleaving |
| `AllocatorSteps.UsersFollowRun` | allocation_base/global_allocator.h:835-843 | over every run the users' buffers are exactly those handed out and not taken back since |
| `AllocatorSteps.HandedOutOnce` | allocation_base/global_allocator.h:835-843 | between two times that a buffer is handed out a user gave it back |
| `AllocatorSteps.OthersKeepOut` | allocation_base/global_allocator.h:419-704 | a step of another thread touches neither a thread's cache nor what its call has in hand |
| `AllocatorSteps.OthersLeaveView` | allocation_base/global_allocator.h:419-704 | however long the other threads run, a thread's own view stays as it was |
| `AllocatorSteps.StepSeen` | allocation_base/global_allocator.h:419-704 | what a thread's own step does to its cache, its hands and its dealings with users |
| `AllocatorSteps.MadeIsPeak` | allocation_base/global_allocator.h:54-101 | over every run of any threads a shard has made for a bucket exactly as many buffers as were ever away from the bucket's list at once: free buffers are reused before any is made |
| `AllocatorSteps.GivenIsTakenNext` | allocation_base/global_allocator.h:65-94 | the buffer given back last is the next its bucket hands out |
| `GlobalAllocator.GlobalAllocator.Yield` | allocation_base/global_allocator.h:239-268 | between two steps any steps of other threads change nothing a thread relies on |
| `GlobalAllocator.GlobalAllocator.UnitMalloc` | allocation_base/global_allocator.h:54-76 | a buffer nobody had, of the least bucket, from the list or new, with any steps of other threads before |
| `GlobalAllocator.GlobalAllocator.EnqueueNewBuffer` | allocation_base/global_allocator.h:103-180 | a new buffer of its bucket at the top of the heap, in the hands of the call |
| `GlobalAllocator.GlobalAllocator.ShardMalloc` | allocation_base/global_allocator.h:294-322 | the shard's number is in the header of the buffer it gave |
| `GlobalAllocator.GlobalAllocator.ShardFree` | allocation_base/global_allocator.h:324-359 | the header leads the buffer back to its own shard and bucket |
| `GlobalAllocator.GlobalAllocator.FlushFreeVec` | allocation_base/global_allocator.h:671-675 | the whole free vector goes back to the shards, one critical section at a time; nothing else of the thread's changes |
| `GlobalAllocator.GlobalAllocator.FreeUserPtr` | allocation_base/global_allocator.h:677-685 | the buffer is the last of the free vector, which keeps what it held unless it was full: then it was flushed first and holds this buffer only |
| `GlobalAllocator.GlobalAllocator.FlushCacheMap` | allocation_base/global_allocator.h:687-704 | every cached buffer goes to the free vector or the shards and all 64 queues are spare |
| `GlobalAllocator.GlobalAllocator.OpenSpareQueue` | allocation_base/global_allocator.h:565-580 | a spare queue given a size, after flushing all when none was spare |
| `GlobalAllocator.GlobalAllocator.Refill` | allocation_base/global_allocator.h:582-605 | sixteen buffers that fit the size, each with the size in its header, fill the queue |
| `GlobalAllocator.GlobalAllocator.AffinedMalloc` | allocation_base/global_allocator.h:474-489 | a buffer nobody had for any nonzero size, fit for its queue: the last one of that queue, which was filled with sixteen if missing; no queue is left empty; the rest of the cache is as before unless a queue was missing |
| `GlobalAllocator.GlobalAllocator.SlowMalloc` | allocation_base/global_allocator.h:525-613 | the slow path has the same contract: it refills a missing queue, and returns an emptied one to the spare ones |
| `GlobalAllocator.GlobalAllocator.AffinedFree` | allocation_base/global_allocator.h:491-521 | the buffer is last in this thread's queue of the size in its header, behind what the queue held, less its first sixteen if it was full, which went to the free vector; the rest of the cache is as before unless a queue was missing |
| `GlobalAllocator.GlobalAllocator.SlowFree` | allocation_base/global_allocator.h:615-669 | the same with the slow path's means: a queue opened where there was none, the first sixteen cut off a full one |
| `GlobalAllocator.GlobalAllocator.SmallMalloc` | allocation_base/global_allocator.h:788-796 | a buffer in hand with the small flag, of the least bucket for the block and seven header bytes |
| `GlobalAllocator.GlobalAllocator.LargeMalloc` | allocation_base/global_allocator.h:803-812 | a buffer in hand with the large flag, of the least bucket for the block and three header bytes |
| `GlobalAllocator.GlobalAllocator.LargeSmallMalloc` | allocation_base/global_allocator.h:731-752 | a promoted request below the large size gets a small buffer, by way of the thread's cache, any other a large one, of the shard drawn; nobody had it, and it is of exactly max(32, ceil2(sz + 8)) bytes |
| `GlobalAllocator.GlobalAllocator.Malloc` | allocation_base/global_allocator.h:835-838 | with other threads running between its steps: null only for zero; else its last step hands out a buffer that was in its hands only, of exactly max(32, ceil2(sz + 8)) bytes, small iff the promoted size is below the large size, and that is all it deals to users; the cache is as the small or large path leaves it, nothing in hand |
| `GlobalAllocator.GlobalAllocator.Free` | allocation_base/global_allocator.h:840-843 | from any thread, with the others running between its steps: takes exactly that buffer from its user; a small one goes to the end of this thread's queue of its size, a large one to the list of the shard and bucket that made it; nothing in hand |
| `GlobalAllocator.FreedIsReused` | allocation_base/global_allocator.h:474-521 | a small buffer freed is the next one its thread gets for that size; unless the queue was full, or missing with none spare, the cache is then as before |
| `GlobalAllocator.GlobalAllocator.Destroy` | allocation_base/global_allocator.h:468-472 | a thread's cache ends empty with all 64 queues, nothing dealt to users |
| `AllocLayout.StampSmall` | allocation_base/global_allocator.h:788-796 | bucket, shard, size and flag bytes are written in front of the user pointer and nothing else changes |
| `AllocLayout.StampLarge` | allocation_base/global_allocator.h:803-812 | bucket, shard and flag bytes are written in front of the user pointer and nothing else changes |
| `AllocLayout.SmallPeels` | allocation_base/global_allocator.h:752-801 | whatever the user wrote, a small block's free finds start, bucket, shard and size |
| `AllocLayout.LargePeels` | allocation_base/global_allocator.h:752-821 | whatever the user wrote, a large block's free finds start, bucket and shard |
| `AllocLayout.Peel` | allocation_base/global_allocator.h:752-821 | reads the headers as specified |
| `AllocLayout.AlignedBlockFits` | allocation_base/global_allocator.h:975-994 | the aligned block and its header lie in the raw block, and their distance is bounded by the alignment and header |
| `AllocLayout.AlignedAlloc` | allocation_base/global_allocator.h:965-999 | bad alignments throw, zero gives null, else an aligned block that fits with its distance written in front |
| `AllocLayout.AlignedRecovers` | allocation_base/global_allocator.h:1001-1014 | the freed raw pointer is the one allocated |
| `AllocLayout.XAlignedAlloc` | allocation_base/global_allocator.h:1034-1071 | as above with the size kept too; aborts iff the size does not fit 32 bits |
| `AllocLayout.XAlignedRecovers` | allocation_base/global_allocator.h:1073-1104 | raw pointer and block size are read back |
| `HeaderMemory.WriteKeepsHeaders` | allocation_base/global_allocator.h:731-812 | the bytes of one header field, written in its place, make the memory hold the rewritten header and leave every other header in place |
| `HeaderMemory.StepKeepsHeaders` | allocation_base/global_allocator.h:182-812 | every step of any thread, with the bytes it writes, leaves the header of every buffer in the memory as the ledger records it |
| `HeaderMemory.UserWriteKeepsHeaders` | allocation_base/global_allocator.h:731-821 | a user who writes anything anywhere in its block leaves every header in place, its own too |
| `HeaderMemory.HeadersStand` | allocation_base/global_allocator.h:182-821 | over every run of steps and users' writes, from any memory of 64-bit addresses, the memory holds every header as the ledger records it |
| `HeaderMemory.FreeFindsHome` | allocation_base/global_allocator.h:752-821 | so in every run `free` finds from the bytes alone, for every user's block, its start, the shard and bucket that made it, and the size of its queue |
| `ConnectionControl.OpenIsFreshUntilWrap` | connectivity_subsystem/connectivity_subsystem.h:311-324 | an opening hands out an id no earlier one did iff fewer than 2^32 openings came before: the 32-bit counter wraps |
| `ConnectionControl.RunIsSound` | connectivity_subsystem/connectivity_subsystem.h:311-370 | over every run topics have handed-out ids and no more slaves than they were opened for |
| `ConnectionControl.GoneStaysGone` | connectivity_subsystem/connectivity_subsystem.h:338-370 | an erased topic stays erased, and every later ping of it fails, until the counter wraps |
| `ConnectionControl.PingsRecorded` | connectivity_subsystem/connectivity_subsystem.h:338-363 | over every run what a topic has recorded of a slave is the time of its last ping |
| `ConnectionControl.EncodeDecode` | connectivity_subsystem/connectivity_subsystem.h:448-459 | slot and base id are recovered from an id, and every id is made of the two |
| `ConnectionControl.ConnectionController.OpenConnection` | connectivity_subsystem/connectivity_subsystem.h:311-324 | a fresh topic under the counter's value, which advances modulo 2^32 |
| `ConnectionControl.ConnectionController.GetConnection` | connectivity_subsystem/connectivity_subsystem.h:326-336 | the topic, iff it is there |
| `ConnectionControl.ConnectionController.PingConnection` | connectivity_subsystem/connectivity_subsystem.h:338-363 | not found iff the topic is not there, room overflow iff it is full without the slave, else the slave's time recorded, with nothing else changed |
| `ConnectionControl.ConnectionController.CloseConnection` | connectivity_subsystem/connectivity_subsystem.h:365-370 | the topic is gone, the others stay |
| `ConnectionControl.DistributedConnectionController.OpenConnection` | connectivity_subsystem/connectivity_subsystem.h:397-408 | a topic under a new id, made of the counter of the controller whose turn it is and its slot; the turn passes on; no other id affected |
| `ConnectionControl.DistributedConnectionController.PingConnection` | connectivity_subsystem/connectivity_subsystem.h:422-432 | bad slot, unknown topic and room overflow each reported exactly when they are so; a success changes that topic only |
| `ConnectionControl.DistributedConnectionController.CloseConnection` | connectivity_subsystem/connectivity_subsystem.h:434-444 | that id names nothing any more, no other is affected |
| `SlaveLiveness.InternalResolutor.Update` | connectivity_subsystem/connectivity_subsystem.h:1022-1125 | one update is one step of the specification, branch by branch |
| `SlaveLiveness.BoundedAfter` | connectivity_subsystem/connectivity_subsystem.h:1022-1125 | where an update can have begun that left the slave alive after the topic went |
| `SlaveLiveness.DeadAfterWorst` | connectivity_subsystem/connectivity_subsystem.h:1022-1125 | if pings called after t never succeed, no update of a run paced by d with updates of at most w that ends later than `Worst` after t finds the slave alive |
| `SlaveLiveness.WorstIsTwoTimeouts` | connectivity_subsystem/connectivity_subsystem.h:1022-1125 | `Worst` is below w + 2*timeout + 3*d, and only two ticks below it where the timeout exceeds the pacing |
| `SlaveLiveness.DeadInTime` | connectivity_subsystem/connectivity_subsystem.h:1022-1125 | in every such run no update ending at t + w + 2*timeout + 3*d or later finds the slave alive |
| `SlaveLiveness.NeverRevives` | connectivity_subsystem/connectivity_subsystem.h:1022-1027 | once false the alive flag stays false |
| `SlaveLiveness.AliveIff` | connectivity_subsystem/connectivity_subsystem.h:1022-1125 | over every run the slave is alive after an update iff no update so far, judged by its clock readings and answers alone, gave a reason to give up: a ping failed, or unanswered for the timeout, or, with none under way, no update for the timeout, the greatest age reached, or a ping that throws |
| `SlaveLiveness.FailureEndsIt` | connectivity_subsystem/connectivity_subsystem.h:1037-1124 | a ping found failed, and one that throws, ends the connection with no promise left, in that very update |
| `SlaveLiveness.HealthyLives` | connectivity_subsystem/connectivity_subsystem.h:1022-1125 | with pings that all go out, none found failed or unanswered for the timeout, updates shorter and less apart than the timeout, and a connection younger than the greatest age, the slave is alive after every update |
| `SlaveWorstCase.PlanIsRun` | connectivity_subsystem/connectivity_subsystem.h:1022-1125 | a plan of polls, a late answer and a second ping, for any timeouts and pacing, is a run that leaves the slave alive |
| `SlaveWorstCase.PlanIsPaced` | connectivity_subsystem/connectivity_subsystem.h:1022-1125 | and it keeps the pacing |
| `SlaveWorstCase.DeadByIff` | connectivity_subsystem/connectivity_subsystem.h:1022-1125 | the exact bound: every run has the slave dead by x after t iff a timeout is zero or x exceeds `Worst` (0 without pacing) |
| `SlaveWorstCase.OneTimeoutIff` | connectivity_subsystem/connectivity_subsystem.h:19-22 | the one timeout of the design note is kept in every run iff the timeout, the absolute timeout or the pacing period is zero |
| `ConnectionLiveness.ErasedTopicEndsSuccess` | connectivity_subsystem/connectivity_subsystem.h:338-370 | a topic closed in the registry ends the success of pings called later |
| `ConnectionLiveness.ErasureReachesSlave` | connectivity_subsystem/connectivity_subsystem.h:338-1125 | end to end: after closing the topic no update that ends later than `Worst` finds the slave alive |
| `MasterLiveness.MasterConnection.Create` | connectivity_subsystem/connectivity_subsystem.h:634-666 | throws iff the configuration is out of range, with nothing opened; else opens a topic of its own and starts alive |
| `MasterLiveness.MasterConnection.Close` | connectivity_subsystem/connectivity_subsystem.h:686-701 | closes the topic unless somebody did |
| `MasterLiveness.MasterConnection.Update` | connectivity_subsystem/connectivity_subsystem.h:794-871 | one update with its five kinds of clock readings is one step of the specification, aborts iff the topic is for no slaves, and closes the topic iff it is the first to dispose of it |
| `MasterLiveness.RunForSlaves` | connectivity_subsystem/connectivity_subsystem.h:704-738 | over every run of the registry: where openings are checked no topic is for no slaves, so no update aborts |
| `MasterLiveness.TopicClosedOnce` | connectivity_subsystem/connectivity_subsystem.h:686-871 | in every run of updates and closes the topic is closed at most once, and exactly once after a close |
| `MasterLiveness.DeadIsDisposed` | connectivity_subsystem/connectivity_subsystem.h:794-811 | the update after the one that found the connection dead has the topic closed, and it stays dead |
| `MasterLiveness.AliveMeansRecent` | connectivity_subsystem/connectivity_subsystem.h:813-868 | alive after an update, the first included: the topic is there, every slave's last ping is recent, and the slaves came in time and not too long ago |
| `MasterLiveness.AliveIff` | connectivity_subsystem/connectivity_subsystem.h:794-871 | over every run the connection is alive iff every update so far found the topic there, with all last pings younger than the timeout, less than the break duration after the first update if the slaves were never complete, and less than the greatest age after they first were if they were |
| `MasterLiveness.SilenceIsNoticed` | connectivity_subsystem/connectivity_subsystem.h:857-868 | a slave silent since p is noticed by p + timeout + d |
| `ConnectionLiveness.SilentStaysSilent` | connectivity_subsystem/connectivity_subsystem.h:311-370 | over every run of the registry in which a slave does not ping, until the counter wraps, its topic is gone or still has that slave's last ping |
| `ConnectionLiveness.SilenceEndsConnection` | connectivity_subsystem/connectivity_subsystem.h:311-871 | end to end: a slave that pings no more has its connection found dead by its last ping + timeout + d, from the registry's own record, and its topic closed exactly once by the update after |
| `QueueSteps.StepIsSound` | concurrent_queue/bounded_queue.h:52-162 | each critical section keeps: every accepted item in exactly one of buffer, parked pushers or one popper's slot; lists in arrival order; waiting only when nothing is there, parking only behind a full buffer; the calls told to wait and not woken are exactly those in the lists |
| `QueueSteps.RunIsSound` | concurrent_queue/bounded_queue.h:52-162 | so does every run before a poison |
| `QueueSteps.RunIsAccounted` | concurrent_queue/bounded_queue.h:52-162 | in every run before a poison each push is accepted with its value, and each pop has its answer or stands in the list |
| `QueueSteps.AnsweredOrBlocked` | concurrent_queue/bounded_queue.h:107-159 | a pop is still blocked iff it has no answer: no wake-up is lost |
| `QueueSteps.PopServesOldest` | concurrent_queue/bounded_queue.h:107-150 | a pop hands out the oldest item iff no pusher is parked behind a buffer with something in it |
| `QueueSteps.RunInTurn` | concurrent_queue/bounded_queue.h:52-159 | over every run before a poison, all calls served stand before all those still waiting, for poppers and for pushers |
| `QueueSteps.PoppersServedInTurn` | concurrent_queue/bounded_queue.h:52-105 | of two pops told to wait, the later has its answer only if the earlier has |
| `QueueSteps.PushersReleasedInTurn` | concurrent_queue/bounded_queue.h:107-159 | of two parked pushers, the later is released only if the earlier is |
| `QueueSteps.ParkedOvertakes` | concurrent_queue/bounded_queue.h:107-150 | the queue is not first in, first out: a run in which the second push comes out first |
| `QueueSteps.PoisonFreesAll` | concurrent_queue/bounded_queue.h:161-177 | a poison wakes every call ever told to wait, answers waiting poppers with nothing, and takes no delivered item back |
| `QueueSteps.PoisonedRun` | concurrent_queue/bounded_queue.h:52-177 | from a poison on every call ever told to wait is woken, every pop ever called has its answer, nothing is accepted and nothing more is delivered |
| `BoundedQueue.BoundedQueue.PushSection` | concurrent_queue/bounded_queue.h:52-105 | the critical section of `push` is the specification's step, which serves the popper that has waited longest; throws iff poisoned, waits iff the buffer is full and nobody waits, and is then among the blocked calls |
| `BoundedQueue.BoundedQueue.PopSection` | concurrent_queue/bounded_queue.h:107-159 | the critical section of `pop` is the specification's step; waits iff there is nothing to take, and is then among the blocked calls |
| `BoundedQueue.BoundedQueue.PoisonSection` | concurrent_queue/bounded_queue.h:161-177 | the two loops of `poison` come to the specification's step |

## Left out

- Device and driver code, REST clients and servers, reflection boilerplate, cancellation, promises and cron facades: thin wrappers around libraries that are not part of this model.
- `stl_extension/datastructure.h` is not part of this model: its cyclic queue is a deque of capacity 64, and the funnel's map is the dense node map of `dg_heap/dg_dense_hash_map.h`.
- Memory orders and real mutexes: a critical section is one step.
- Running out of memory where the source only rolls back, apart from the scope allocator, whose limit on segments is a parameter.
- `std::sort` in the quicksort's fallback, `std::vector` and `std::unordered_map`: taken by their specifications. `vector::reserve` makes the capacity exactly the maximum of the old one and the request.
- NaN keys: sorting is over integers, the heaps over any total preorder.
- Quicksort.SortIsBounded: bounds what the source charges itself for, not the comparisons and moves behind it, and only while the counters do not wrap.
- DenseHashMap.UnorderedNodeMap.Create: `VirtualAddrType` is `size_t` here; with a narrower type the cast of a size could reach the null address before the maximum size does. The template's node layouts, allocators and iterator-range constructors are not modelled.
- ExpiryQueueBinary.TemporalOrderedItemMap.DrainExpired: of the retransmission controller only the loop over the map is modelled.
- ExpiryQueueBinary.TemporalOrderedItemMap.Add: allocation failure of the id map is not modelled.
- Serializer.Put: native byte order and floating-point values are numbers of a given width here; `std::map` and `std::set` are not modelled, as `Backward` calls `reserve` on them.
- Serializer.Get: reports the end of the buffer where the source would read past it.
- FunnelRun.Feed: the plain funnel without keys, event destructors, and the handle that allocates its own buffer are not modelled.
- StackAllocator.SplitStackAllocator.EnterScope: failure to grow the vector of saved points is not modelled, nor is the fixed-size allocator beside it.
- GlobalAllocator.GlobalAllocator.Malloc: a shard serves the requests of one call one critical section at a time, where the source may serve several in one, so more interleavings are covered than occur. A refill queues each buffer as it is fetched, where the source queues all sixteen at the end. Queues are emptied by popping instead of by walking and clearing. The feeds that group a call's shard requests are covered by the funnel's own theorem.
- GlobalAllocator.GlobalAllocator.Free: double free is excluded by the precondition.
- HeaderMemory.HeadersStand: a header field is written in one step, where the source copies it byte by byte.
- AllocLayout.AlignedAlloc: wrap-around of addresses and sizes near 2^64 is not modelled.
- SlaveLiveness.InternalResolutor.Update: retries inside the ping client, logging and the cron that calls it are parameters or left out.
- MasterLiveness.MasterConnection.Create: the retry settings of pings, which only the ping client reads, and failure to register the cron job are not modelled.
- ConnectionControl.DistributedConnectionController.OpenConnection: the atomicity of the round-robin counter is one step.
- QueueSteps.PoisonFreesAll: a second poison is not modelled; the lists are left as they are by the first, so it would release semaphores twice.
