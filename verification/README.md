# Index structures and memory reclamation: a verified model

A benchmark suite for learned and traditional in-memory indexes carries complete index and
reclamation algorithms. This project models the ones whose correctness is not evident from their
code, and proves what they are for.

- **Optimal piecewise-linear segmentation** (`PgmGeometry`, `PgmSegment`, `PgmModel`, `PgmMetric`).
  `add_point` keeps two pruned convex hulls and a four-point rectangle and decides in near-constant
  time whether one more point still fits a line within the error. The model keeps the hulls as the
  class does, and the proofs show that the early-break tangent scans and the pruning refine the
  all-pairs definition, that acceptance is exact, and that the greedy count is the least one.
- **Epoch-based reclamation** (`EpochMachine`, `EpochProof`, `EpochSafety`, `EpochAlone`, and
  `GarbageListUnsafe.dfy`). The epoch manager and the shared garbage ring are a machine of atomic steps
  run by any number of threads in any order, with what holds in every run and what each call does when
  nobody disturbs it; the thread-local list is imperative code.
- **B-tree with optimistic lock coupling** (`BTreeNodes`, `BTreeMachine`, `BTreeProof`, `BTreeShape`,
  `BTreeSafety`, `BTreeAlone`). The nodes are classes over arrays; insert and lookup are a machine of
  atomic steps over version words, with reads that return anything unless the version still holds.
- **Reader/writer lock with promotion** (`ModelNodeLock`), as a machine of atomic steps.
- **ALEX data node** (`AlexBitmap`, `AlexSearch`, `AlexSlots`, `AlexDataNode.dfy`): a sorted array with
  gaps, a bitmap of 64-bit words and a model that only guides. Which pairs are stored and found never
  depends on what the model predicts; which slots they get does, and the contracts say how.
- **ALEX model node and fanout tree** (`AlexRouting`, `AlexModelNode`, `AlexSplit`, `AlexLeafSplit`,
  `AlexFanout`, `AlexFanoutFill`): routing, expansion, two-way splits with the data nodes they divide,
  and the division of child pointers.
- **Adaptive radix tree** (`ArtTree`, `ArtRemove`, `ArtMap`, `ArtLayouts`, `ArtGrow`, `ArtNode`): path compression
  with eleven stored bytes, growth, shrinking and collapse, as a refinement of a finite map, and the
  four node layouts as classes over arrays, each tied to the node of the tree it stores.

`Sequences` holds what several models share.

Conventions. Integers are unbounded except where their width matters: the ends of the rank type in
`PgmModel.Widen`, the 32-bit lock word, the one-byte count of radix nodes. A 64-bit word of a bitmap
is the set of its one bits. In the machines every atomic access is one step and memory is
sequentially consistent. Exceptions and error codes are values of the result types.

Where the code and its comments differ, the model follows the code: `GarbageList::Scavenge` never
counts what it frees (src/dependency/epoch_reclaimer-src/garbage_list.h:381-426), and
`get_next_filled_position`, the iterator and `num_keys_in_range` read `bitmap_` one word past its end
when asked about the capacity and the capacity is a multiple of 64
(src/competitor/alex/src/alex_nodes.h:1524, 622, 545). `find_lower` and so `erase_one` can do this, and
so can a two-way split in which every key goes left; the contracts say exactly when.

## Model

| member | source | states |
|---|---|---|
| `PgmGeometry.CompareToLine` | src/benchmark/pgm_metric.h:176-180 | the sign of the integer cross product says on which side of the line through two points a third one lies |
| `PgmSegment.TangentIsBelow` | src/benchmark/pgm_metric.h:361-369 | on a convex chain the scan that stops at the first slope on the wrong side has found the true tangent: its line lies below the whole chain |
| `PgmSegment.BelowPopped` | src/benchmark/pgm_metric.h:376-380 | a line below the new hull is below every hull point that was popped |
| `PgmSegment.ChainStep` | src/benchmark/pgm_metric.h:359-405 | a kept suffix of a pruned hull with the new point still decides, for every line between the two extreme ones, whether it passes under all interval tops |
| `PgmSegment.StaysExact` | src/benchmark/pgm_metric.h:359-410 | after an accepted point the two rectangle diagonals are lines through every interval including the new one, and the pruned hulls still decide the next point |
| `PgmSegment.TwoPoints` | src/benchmark/pgm_metric.h:325-347 | two intervals with increasing x put the model into such an exact state |
| `PgmSegment.Outside` | src/benchmark/pgm_metric.h:349-357 | when either outside test holds, no line passes through all intervals together with the new one |
| `PgmModel.AllPairs` | src/benchmark/pgm_metric.h:313-410 | the slope of one diagonal is the maximum over all pairs i<j of (lo_j - hi_i)/(x_j - x_i) and of the other the minimum of (hi_j - lo_i)/(x_j - x_i), both attained |
| `PgmModel.UpdatesAreExact` | src/benchmark/pgm_metric.h:359-405 | the two updates, each made only when its slope test asks for it, lead from an exact state to an exact state |
| `PgmModel.ScanUpper` | src/benchmark/pgm_metric.h:385-393 | the early-break loop stops at an index where all slopes before it fall and the next one rises |
| `PgmModel.ScanLower` | src/benchmark/pgm_metric.h:361-369 | the same for the lower hull |
| `PgmModel.TrimUpper` | src/benchmark/pgm_metric.h:376-379 | the pop loop ends where the last three points turn the right way, or two are left |
| `PgmModel.TrimLower` | src/benchmark/pgm_metric.h:400-403 | the same for the lower hull |
| `PgmModel.OptimalPiecewiseLinearModel.AddPoint` | src/benchmark/pgm_metric.h:313-410 | throws exactly when x does not increase; else accepted exactly when some real line passes through every widened interval including the new one; an accepted point joins the segment |
| `PgmModel.OptimalPiecewiseLinearModel.Reset` | src/benchmark/pgm_metric.h:412-418 | the segment is empty again |
| `PgmMetric.GreedyStaysAhead` | src/benchmark/pgm_metric.h:445-455 | the i-th cut of the greedy partition is not before the i-th cut of any other partition into stretches that each admit a line |
| `PgmMetric.GreedyIsShortest` | src/benchmark/pgm_metric.h:445-455 | no partition has fewer stretches than the greedy one |
| `PgmMetric.SortSorts` | src/benchmark/pgm_metric.h:441 | the sorted keys are in order and the same multiset |
| `PgmMetric.CountSegments` | src/benchmark/pgm_metric.h:442-462 | the count is the least number of segments; a repeated key throws and nothing else does; no keys give 1 |
| `PgmMetric.ComputePgmMetric` | src/benchmark/pgm_metric.h:439-463 | for every key array, sorted or not: repeated keys throw, else the result is the least number of segments of the sorted keys with error at most the given bound, or the bound plus 2^64 when it is negative |
| `EpochProof.InvStep` | src/dependency/epoch_reclaimer-src/epoch_manager.h:75-109 | every step of every thread keeps the invariant of the epoch manager and the ring |
| `EpochProof.HeldStep` | src/dependency/epoch_reclaimer-src/epoch_manager.h:528-590 | an item in the hands of a protected thread was linked when read and was not removed in an epoch before the one the thread published |
| `EpochProof.ScansStep` | src/dependency/epoch_reclaimer-src/epoch_manager.h:602-616 | a scan in progress, also one overtaken by other bumps, has an oldest value that bounds every thread it has passed |
| `EpochProof.SafeStep` | src/dependency/epoch_reclaimer-src/epoch_manager.h:412-431 | the stored safe epoch stays below every epoch in which a held item was removed |
| `EpochSafety.SafeBelowCurrent` | src/dependency/epoch_reclaimer-src/epoch_manager.h:412-431 | in every run the safe epoch does not underflow and stays below the current epoch |
| `EpochSafety.ReclaimIsSafe` | src/dependency/epoch_reclaimer-src/epoch_manager.h:107-109 | if IsSafeToReclaim(r) holds for an item removed and then stamped r, no thread that read it while linked is still in that region, now or later in the run |
| `EpochSafety.NoUseAfterFree` | src/dependency/epoch_reclaimer-src/garbage_list.h:271-281 | in every run no destroyed item is held by a thread |
| `EpochProof.RingStep` | src/dependency/epoch_reclaimer-src/garbage_list.h:246-298 | a slot has at most one owner, and an owner is the thread that swapped the stamp |
| `EpochSafety.AtMostOnce` | src/dependency/epoch_reclaimer-src/garbage_list.h:242-298 | a pushed item is in one place only: one pusher, one slot, or once in the destroy log |
| `EpochSafety.NeverLost` | src/dependency/epoch_reclaimer-src/garbage_list.h:242-298 | from the start of a push on, in every later state of every run, exactly one of three holds: the pushing thread still has the item, exactly one slot holds it, or it is destroyed |
| `EpochSafety.PushStores` | src/dependency/epoch_reclaimer-src/garbage_list.h:284-297 | a push that no longer has its item ended by publishing it in a slot, stamped with the epoch that was current when the push began, and had not let go of it before |
| `EpochSafety.DestroyedWhenSafe` | src/dependency/epoch_reclaimer-src/garbage_list.h:272-281 | an item is destroyed only by the callback, out of a slot that holds it, while nobody holds it, and after a state whose safe epoch is at or above the epoch in which the item was removed |
| `EpochSafety.ReportedSafe` | src/dependency/epoch_reclaimer-src/garbage_list.h:400-409 | a thread that destroys the item of a slot saw that slot's stamp reported safe while it owned the slot |
| `EpochAlone.BumpStores` | src/dependency/epoch_reclaimer-src/epoch_manager.h:412-431 | in every run, what a bump stores is one less than the epoch it began with, or one less than an epoch some table entry had while the scan was going on |
| `EpochAlone.OldestIs` | src/dependency/epoch_reclaimer-src/epoch_manager.h:602-616 | the oldest epoch that the scan ends with is a lower bound of the given epoch and all published ones, and is one of them |
| `EpochAlone.BumpAlone` | src/dependency/epoch_reclaimer-src/epoch_manager.h:412-431 | a bump that nobody disturbs ends after as many steps as there are entries and two more, with the epoch grown by one and the safe epoch one less than the least of the old epoch and all published ones; nothing else changes |
| `EpochAlone.BumpInRun` | src/dependency/epoch_reclaimer-src/epoch_manager.h:412-431 | the same epoch and safe epoch at that point of any run in which only that thread moved meanwhile |
| `EpochAlone.TwoBumps` | src/dependency/epoch_reclaimer-src/epoch_manager.h:412-431 | two undisturbed bumps with nobody protected make every epoch up to the one before them safe, and so every item removed before them |
| `EpochAlone.ScavengeAlone` | src/dependency/epoch_reclaimer-src/garbage_list.h:379-427 | a scavenge that nobody disturbs comes to every slot, clears exactly those with a reclaimable item, destroys these items in slot order, changes nothing else and ends within five steps a slot |
| `EpochAlone.SlotsInTurn` | src/dependency/epoch_reclaimer-src/garbage_list.h:247 | pushes try the slots in turn: the last one first, then from 0 on, and round again |
| `EpochAlone.PushRoundAlone` | src/dependency/epoch_reclaimer-src/garbage_list.h:246-298 | one undisturbed round of a push: the slot tried, the bump exactly at the start of each quarter, and then either the old item is destroyed, the new one stored with its stamp and the push ends, or the ring is as before and the push goes on; which of the two is decided by the stamp and the safe epoch after the bump |
| `EpochAlone.ProtectAlone` | src/dependency/epoch_reclaimer-src/epoch_manager.h:528-548 | a thread that has an entry or finds a free one publishes the current epoch in it and is protected; no other entry changes |
| `EpochAlone.ProtectPublishes` | src/dependency/epoch_reclaimer-src/epoch_manager.h:75-78 | in every run a protecting thread publishes the epoch it loaded at the start of the call, however late |
| `EpochAlone.UnprotectLeaves` | src/dependency/epoch_reclaimer-src/epoch_manager.h:567-583 | after it the thread is not protected and holds nothing, and no other entry changes |
| `LocalGarbage.EpochManager.BumpCurrentEpoch` | src/dependency/epoch_reclaimer-src/epoch_manager.h:412-431 | the epoch grows by one and the safe epoch becomes one less than the oldest protected epoch |
| `LocalGarbage.EpochManager.ComputeNewSafeToReclaimEpoch` | src/dependency/epoch_reclaimer-src/epoch_manager.h:602-616 | the scan loop computes one less than the minimum over the protected entries |
| `LocalGarbage.GarbageListUnsafe.Attempt` | src/dependency/epoch_reclaimer-src/garbage_list_unsafe.h:171-210 | one round: which slot, when the epoch rolls, when the old item is destroyed and the new one stored |
| `LocalGarbage.GarbageListUnsafe.Push` | src/dependency/epoch_reclaimer-src/garbage_list_unsafe.h:167-211 | the call never ends exactly when some thread is protected and no slot is free or holds an item removed before every protected thread entered; otherwise the item is stored in the slot of the last attempt, stamped with the epoch at the start, what was there was reclaimable and is destroyed, nothing else changes, and there are at most two laps of attempts, with no protected thread at most max(2, item_count/2) |
| `LocalGarbage.OverfullSpins` | src/dependency/epoch_reclaimer-src/garbage_list_unsafe.h:171-210 | in every power-of-two ring with one thread protected, as many pushes as there are slots go through and destroy nothing, and the next one never ends |
| `LocalGarbage.StuckForever` | src/dependency/epoch_reclaimer-src/garbage_list_unsafe.h:171-200 | from a stuck state every further attempt fails and leaves a stuck state |
| `LocalGarbage.QuietGoesOn` | src/dependency/epoch_reclaimer-src/garbage_list_unsafe.h:176-180 | without protected threads two bumps make every resident reclaimable |
| `LocalGarbage.GarbageListUnsafe.Scavenge` | src/dependency/epoch_reclaimer-src/garbage_list_unsafe.h:217-256 | exactly the slots with a reclaimable stamp are cleared, every item is still accounted for once, and the result is their number |
| `LocalGarbage.GarbageListUnsafe.Uninitialize` | src/dependency/epoch_reclaimer-src/garbage_list_unsafe.h:121-141 | every item left is destroyed once |
| `BTreeNodes.FindLowerBound` | src/competitor/btreeolc/src/BTreeOLC.h:99-113 | the do-while binary search returns the number of smaller keys of a non-empty ordered node |
| `BTreeNodes.BTreeLeaf.Insert` | src/competitor/btreeolc/src/BTreeOLC.h:126-144 | the leaf holds the pair in order, replacing the payload of an equal key |
| `BTreeNodes.BTreeLeaf.Split` | src/competitor/btreeolc/src/BTreeOLC.h:146-154 | the two leaves hold the halves and the separator is the last key of the left one |
| `BTreeNodes.BTreeInner.Insert` | src/competitor/btreeolc/src/BTreeOLC.h:211-220 | the separator enters in order and the new child to the right of the child it was split from |
| `BTreeNodes.BTreeInner.Split` | src/competitor/btreeolc/src/BTreeOLC.h:201-209 | the two nodes hold the halves without the separator |
| `BTreeProof.AdvancesStep` | src/competitor/btreeolc/src/BTreeOLC.h:15-69 | a node whose word is unlocked with the same version has not changed, and a locked node is changed only by the holder of its lock |
| `BTreeProof.PcKept` | src/competitor/btreeolc/src/BTreeOLC.h:249-357 | what a thread relies on at each point of insert and lookup survives every step of the other threads |
| `BTreeProof.PcMoved` | src/competitor/btreeolc/src/BTreeOLC.h:249-407 | each step of insert and lookup gives the thread what it relies on at the next point |
| `BTreeProof.LocksStep` | src/competitor/btreeolc/src/BTreeOLC.h:32-52 | locked nodes are locked, and no two threads hold the same one |
| `BTreeShape.UpsertLookup` | src/competitor/btreeolc/src/BTreeOLC.h:126-144 | after a write the leaf answers with the new value and for every other key as before |
| `BTreeShape.HalvesOk` | src/competitor/btreeolc/src/BTreeOLC.h:146-154 | both halves of a split node are well formed on either side of a separator strictly inside the range |
| `BTreeShape.GrownOk` | src/competitor/btreeolc/src/BTreeOLC.h:211-220 | the separator and the new child enter the parent exactly where the split child is, and all child ranges agree |
| `BTreeShape.SplitUnderParent` | src/competitor/btreeolc/src/BTreeOLC.h:331-341 | a split below a parent keeps separators, child ranges and levels of the whole tree in agreement |
| `BTreeShape.SplitRoot` | src/competitor/btreeolc/src/BTreeOLC.h:233-240 | so does the split of the root under a new root |
| `BTreeShape.SplitStore` | src/competitor/btreeolc/src/BTreeOLC.h:286-296 | after a split the leaves together answer as before |
| `BTreeShape.WriteStore` | src/competitor/btreeolc/src/BTreeOLC.h:353-354 | after a write the leaves together answer as the completed writes do |
| `BTreeSafety.InvStep` | src/competitor/btreeolc/src/BTreeOLC.h:249-407 | every step of every thread keeps the invariant of the concurrent tree |
| `BTreeSafety.ValidatedRead` | src/competitor/btreeolc/src/BTreeOLC.h:58-64 | in every run a read validated at its version overlaps no write-locked section of the node: nobody held the lock and the node did not change in between |
| `BTreeSafety.ReadLock` | src/competitor/btreeolc/src/BTreeOLC.h:22-30 | a thread goes on to read the root or a child only with the version of a node it found unlocked, and restarts exactly when the node was locked |
| `BTreeSafety.WriteLands` | src/competitor/btreeolc/src/BTreeOLC.h:342-356 | in every run an insert writes into the leaf whose range covers its key, the one a descent from the root reaches, and there is room |
| `BTreeSafety.NothingLost` | src/competitor/btreeolc/src/BTreeOLC.h:249-357 | in every reachable state, through leaf, inner and root splits, the tree holds exactly what the completed writes amount to |
| `BTreeSafety.StoreIsWritten` | src/competitor/btreeolc/src/BTreeOLC.h:353-355 | what is stored after i steps is the last value written for each key in those steps |
| `BTreeSafety.InsertWrote` | src/competitor/btreeolc/src/BTreeOLC.h:342-356 | an insert that is about to return has written its pair exactly once since its call began, and that was its last step |
| `BTreeSafety.LookupAnswers` | src/competitor/btreeolc/src/BTreeOLC.h:392-407 | in every run a lookup returns only from its last version check, and its answer is that the key is found, with the value written last, exactly when the key was written before that step |
| `BTreeSafety.NeverStuck` | src/competitor/btreeolc/src/BTreeOLC.h:249-407 | in every reachable state every thread has a next step |
| `BTreeAlone.LocksAreReleased` | src/competitor/btreeolc/src/BTreeOLC.h:276-295 | in every run a locked node is held by some thread |
| `BTreeAlone.AloneStep` | src/competitor/btreeolc/src/BTreeOLC.h:265-357 | running alone, a split takes a level not split before, and any other step leads on without a restart |
| `BTreeAlone.InsertAloneEnds` | src/competitor/btreeolc/src/BTreeOLC.h:249-357 | a call that runs alone from any reachable quiet state, an insert in particular, splits at most one node of each level, restarts once for each split, and ends within a bound in the height |
| `BTreeAlone.LookupAloneEnds` | src/competitor/btreeolc/src/BTreeOLC.h:360-407 | a lookup that runs alone from any reachable quiet state does not restart, ends within a bound in the height, and answers with what was written last |
| `ModelNodeLock.InvStep` | src/competitor/alexol/src/alex_nodes.h:192-307 | the lock word always equals the writer bit plus the number of readers, for any number of threads below 2^31 |
| `ModelNodeLock.WriterExcludes` | src/competitor/alexol/src/alex_nodes.h:208-213 | a writer past its wait excludes all readers and all other writers |
| `ModelNodeLock.WaitEnds` | src/competitor/alexol/src/alex_nodes.h:236-240 | a waiting writer goes on exactly when no reader is left |
| `ModelNodeLock.OwnerKeepsOthersOut` | src/competitor/alexol/src/alex_nodes.h:192-206 | as long as one thread owns the writer bit, in any run, nobody else becomes a writer or a reader |
| `ModelNodeLock.OnePromotion` | src/competitor/alexol/src/alex_nodes.h:216-234 | of several readers that promote at once at most one is granted; one that is refused is still a reader and the word is unchanged |
| `ModelNodeLock.CallOutcome` | src/competitor/alexol/src/alex_nodes.h:192-307 | every call, undisturbed between its load and its swap: refused at once with the word unchanged exactly when there is a writer or the node is retired, else the reader is counted or the writer bit set |
| `ModelNodeLock.SwapOutcome` | src/competitor/alexol/src/alex_nodes.h:200-206 | a swap that finds another word: the try calls give up, the others are refused when there is a writer or the node is retired by now, and else try again from the current count of readers |
| `ModelNodeLock.LeaveOutcome` | src/competitor/alexol/src/alex_nodes.h:301-307 | a reader that leaves is no longer counted and a writer leaves a free word |
| `ModelNodeLock.RetireOutcome` | src/competitor/alexol/src/alex.h:2202-2204 | a node becomes obsolete only by a writer that holds its lock |
| `ModelNodeLock.RetiredForGood` | src/competitor/alexol/src/alex.h:2202-2204 | an obsolete node stays obsolete in every run |
| `ModelNodeLock.RetiredKeepsOut` | src/competitor/alexol/src/alex_nodes.h:192-299 | a thread outside when the node is obsolete never reads, waits or writes under its lock later in the run |
| `AlexBitmap.GapInBlock` | src/competitor/alex/src/alex_nodes.h:2035-2076 | when the block of the position has a gap, the result is a nearest gap, also across the border of the block |
| `AlexBitmap.GapInOtherBlocks` | src/competitor/alex/src/alex_nodes.h:1942-2034 | when it has none, the search over neighbouring blocks gives a nearest gap, or -1 when there is none |
| `AlexBitmap.ClosestGap` | src/competitor/alex/src/alex_nodes.h:1934-2077 | for every bitmap, also with a partial last word: a gap at minimum distance from min(pos, capacity-1), and -1 exactly when there is no gap |
| `AlexSearch.ExponentialSearchUpperBound` | src/competitor/alex/src/alex_nodes.h:1556-1597 | from any start slot, the first position with a greater key |
| `AlexSearch.ExponentialSearchLowerBound` | src/competitor/alex/src/alex_nodes.h:1613-1653 | from any start slot, the first position with a key not less |
| `AlexSearch.GetNextFilledPosition` | src/competitor/alex/src/alex_nodes.h:1516-1540 | the first filled position or the capacity; the bitmap is read past its end exactly for the capacity itself when that is a multiple of 64 |
| `AlexSearch.Initialize` | src/competitor/alex/src/alex_nodes.h:620-629 | an iterator started at any slot up to the capacity stands at the next filled one, or the end; it reads past the bitmap exactly when it starts at the capacity and that is a multiple of 64 |
| `AlexSearch.Advance` | src/competitor/alex/src/alex_nodes.h:631-643 | the iterator goes to the next filled position, or says that there is none |
| `AlexSearch.NumKeysInRange` | src/competitor/alex/src/alex_nodes.h:539-567 | the word-by-word population count is the number of filled slots in the range, with the same read past the bitmap |
| `AlexSlots.PlaceInGap` | src/competitor/alex/src/alex_nodes.h:1881-1896 | placing a pair in a gap keeps the gapped-array invariant and adds the pair after those with keys up to its own |
| `AlexSlots.PlaceAfterShiftRight` | src/competitor/alex/src/alex_nodes.h:1904-1915 | so does shifting right into the nearest gap |
| `AlexSlots.PlaceAfterShiftLeft` | src/competitor/alex/src/alex_nodes.h:1916-1928 | so does shifting left |
| `AlexSlots.ClearedRange` | src/competitor/alex/src/alex_nodes.h:2150-2219 | clearing the slots whose keys are in a range keeps the invariant and removes exactly the pairs of the range |
| `AlexSlots.ClearedFirst` | src/competitor/alex/src/alex_nodes.h:2125-2141 | clearing the first filled slot with a key and the gaps before it removes the first pair with that key |
| `AlexSlots.AddedCounts` | src/competitor/alex/src/alex_nodes.h:1721-1724 | adding adds one pair and loses none |
| `AlexSlots.AddedInOrder` | src/competitor/alex/src/alex_nodes.h:1491-1510 | adding keeps the pairs in order |
| `AlexSlots.RemovedCounts` | src/competitor/alex/src/alex_nodes.h:2183-2219 | removing a range keeps exactly the pairs outside it, as often as they were there |
| `AlexSlots.RemovedInOrder` | src/competitor/alex/src/alex_nodes.h:2183-2219 | removing a range keeps the other pairs in order |
| `AlexNode.LookupPastBitmap` | src/competitor/alex/src/alex_nodes.h:1472-1478 | every node bulk-loaded with 45 pairs whose model sends the greatest key to slot 63 or beyond has 64 slots with that key in the last, and a lookup of any greater key reads past its bitmap |
| `AlexNode.AlexDataNode.FindKey` | src/competitor/alex/src/alex_nodes.h:1455-1467 | -1 exactly for keys that are not stored, else the last pair with the key, for every model |
| `AlexNode.AlexDataNode.FindLower` | src/competitor/alex/src/alex_nodes.h:1472-1478 | the first filled slot not below the key or the capacity, and exactly when the lookup reads past the bitmap |
| `AlexNode.AlexDataNode.FindInsertPosition` | src/competitor/alex/src/alex_nodes.h:1496-1510 | the upper bound, or a gap with only gaps back to it, and of all such places the one nearest to the predicted position |
| `AlexNode.AlexDataNode.InsertUsingShifts` | src/competitor/alex/src/alex_nodes.h:1900-1929 | the pair is added in order and the invariant kept |
| `AlexNode.AlexDataNode.Insert` | src/competitor/alex/src/alex_nodes.h:1682-1734 | on the state before the call: 2 when a catastrophe is found at a multiple of 64 inserts; on a full node 1 for a deviation, else 2 for a catastrophe, else 3 exactly when the keys exceed 0.6 of the greatest size; otherwise -1 for a refused duplicate and 0. Code 0 adds the pair after all pairs with keys up to its own and counts the insert, any other code leaves the pairs as they are; capacity, thresholds and model change exactly by the expansion, and the invariant is kept |
| `AlexNode.AlexDataNode.EraseOne` | src/competitor/alex/src/alex_nodes.h:2113-2148 | the first pair with the key is removed, the node is contracted to density 0.8 exactly when a removal brings it below its threshold, and exactly when the search reads past the bitmap |
| `AlexNode.AlexDataNode.Erase` | src/competitor/alex/src/alex_nodes.h:2153-2181 | all pairs with the key are removed and counted, and the node is contracted exactly when some slot had the key and the number of keys is then below the threshold |
| `AlexNode.AlexDataNode.EraseRange` | src/competitor/alex/src/alex_nodes.h:2185-2219 | all pairs of the range are removed and counted, also when the range is empty; contraction is considered exactly when the first slot is not above the range |
| `AlexNode.AlexDataNode.Fill` | src/competitor/alex/src/alex_nodes.h:1784-1842 | for every model, also a non-monotone or out-of-range one: all pairs fit, their order is kept, the invariant holds, and every pair is in its predicted slot, or right after the pair before it when that slot is taken, or packed without a gap up to the end |
| `AlexNode.AlexDataNode.Resize` | src/competitor/alex/src/alex_nodes.h:1737-1867 | the same pairs in the same order in a valid node of the capacity for the density, placed by the new model, with the thresholds of that capacity; without keys nothing changes |
| `AlexNode.AlexDataNode.BulkLoad` | src/competitor/alex/src/alex_nodes.h:1155-1233 | a valid node that stands for exactly the given pairs, placed by the model, with the capacity and thresholds of its size; its last slot is filled when the model sends the greatest key there or beyond |
| `AlexNode.AlexDataNode.CollectRange` | src/competitor/alex/src/alex_nodes.h:1282-1313 | an iterator started at left yields exactly the pairs in the slots up to right, in order |
| `AlexNode.AlexDataNode.BulkLoadFromExisting` | src/competitor/alex/src/alex_nodes.h:1240-1340 | for every model the node then stands for exactly the pairs in the slots from left up to right of the other node, placed by the model in the capacity for 0.6, with the key count taken from an iterator or given as the true one; and exactly when that iterator reads past the bitmap |
| `AlexNode.LeafFromExisting` | src/competitor/alex/src/alex.h:860-895 | the same for a new node, with the count taken from the bitmap when the old model is used again; either way it reads past the bitmap exactly when left is the capacity and that is a multiple of 64 |
| `AlexNode.AlexDataNode.LowerBoundAt` | src/competitor/alex/src/alex_nodes.h:1603-1608 | for a real key the first slot whose key is not below it |
| `AlexRouting.BucketExpands` | src/competitor/alex/src/alex_nodes.h:107-111 | with both model parameters multiplied by f, the clamped and truncated prediction divided by f is the old one |
| `AlexModelNode.ModelNode.Expand` | src/competitor/alex/src/alex_nodes.h:118-140 | every key is routed to the child it had, and the runs stay aligned powers of two |
| `AlexSplit.SplitRoutes` | src/competitor/alex/src/alex.h:1671-1725 | after the pointers of a child were divided at the middle, a key that had the child has the half its prediction lies in, any other key its old child |
| `AlexSplit.DividePointers` | src/competitor/alex/src/alex.h:1719-1724 | the first half of the run points to the left node and the second to the right one, runs stay aligned, and every key follows |
| `AlexLeafSplit.NotMisplaced` | src/competitor/alex/src/alex.h:1689-1699 | in exact arithmetic the boundary found by lower_bound divides the slots at position mid of the model, so the correction loop takes no step |
| `AlexLeafSplit.Correct` | src/competitor/alex/src/alex.h:1692-1699 | from any start the correction loop passes only pairs predicted left of mid and ends where the next key is not; it takes no step exactly when its test fails at the start |
| `AlexLeafSplit.DivideLeaf` | src/competitor/alex/src/alex.h:1689-1713 | two new valid nodes hold all pairs of the old one in order, the left those predicted below mid and the right the others; and exactly when the right load reads past the bitmap |
| `AlexLeafSplit.SplitPastBitmap` | src/competitor/alex/src/alex.h:1689-1713 | such a node, when its parent's model has every key left of the middle, is divided with a read past its bitmap |
| `AlexLeafSplit.CreateTwoNewDataNodes` | src/competitor/alex/src/alex.h:1671-1727 | the pairs are divided, the run is halved at its middle, and every stored key is routed to the node that holds it |
| `AlexLeafSplit.InsertKeepsRoutes` | src/competitor/alex/src/alex.h:1144-1147 | an insert into the node its key is routed to keeps every stored key of that node routed to it, which is what the splits ask for |
| `AlexLeafSplit.MakeRoom` | src/competitor/alex/src/alex.h:1627-1643 | the pointers are doubled exactly when the child has one, no route changes, and the first bucket of the run is found |
| `AlexLeafSplit.SplitSideways` | src/competitor/alex/src/alex.h:1621-1663 | the run of the old node, doubled if need be, is halved at its exact middle; the two new nodes hold its pairs in order and complete; every stored key is routed to the node that holds it and every other key keeps its child; or, exactly when the key in the last slot is left of the middle and the slots are a multiple of 64, the load reads past the bitmap |
| `AlexLeafSplit.SplitDownwards` | src/competitor/alex/src/alex.h:1566-1617 | the new model node takes over the run and divides its range at the exact middle; every stored key is routed to it and by it to the new node that holds the key; no pair is lost; with the same exact condition for the read past the bitmap |
| `AlexFanout.MergeCovered` | src/competitor/alex/src/alex_fanout_tree.h:66-98 | merging two used siblings into their parent keeps every slot of the level covered exactly once |
| `AlexFanout.MergeNodesUpwards` | src/competitor/alex/src/alex_fanout_tree.h:63-104 | from a fully used level, for any costs, the nodes in use are in the end exactly those that take in everything below them and are not taken in themselves, and they cover every slot exactly once |
| `AlexFanout.ExactlyOne` | src/competitor/alex/src/alex_fanout_tree.h:63-104 | a covered tree has exactly one used node on the way from the root to each slot |
| `AlexFanout.InOrderTiles` | src/competitor/alex/src/alex_fanout_tree.h:38-56 | the used nodes from left to right start where the one before ends, from slot 0 to the last |
| `AlexFanoutFill.CollectUsedNodes` | src/competitor/alex/src/alex_fanout_tree.h:38-56 | collecting by levels and sorting by first slot gives the used nodes from left to right |
| `AlexFanoutFill.FillChildren` | src/competitor/alex/src/alex.h:805-840 | each child pointer gets the node whose slots include it |
| `AlexFanoutFill.DivideChildren` | src/competitor/alex/src/alex.h:798-840 | the nodes collected are the used ones after merging, from left to right, and every child pointer gets the one used node over it |
| `ArtTree.Lookup` | src/competitor/artolc_old/src/Tree.cpp:32-89 | the identifier stored for the key, or 0 exactly when there is none, whatever prefix bytes were skipped |
| `ArtTree.PrefixIs` | src/competitor/artolc_old/src/Tree.cpp:576-609 | the bytes the pessimistic check reads, stored or from some key below, are the whole prefix, and what it leaves for the cut node is right |
| `ArtTree.InsertCuts` | src/competitor/artolc_old/src/Tree.cpp:381-407 | cutting a prefix gives a node with the bytes before the cut above the old node and the new leaf; nothing below is lost |
| `ArtTree.InsertForks` | src/competitor/artolc_old/src/Tree.cpp:432-454 | a leaf with another key becomes a node that both keys reach |
| `ArtTree.InsertIsCorrect` | src/competitor/artolc_old/src/Tree.cpp:351-458 | insert keeps the tree well formed, with at least two children below the root, and the tree holds the new identifier for the key and all other keys as before |
| `ArtRemove.TwoMeansN4` | src/competitor/artolc_old/src/N.cpp:343-354 | a node below the root with two children is an N4, although the count is one byte |
| `ArtRemove.PrependStored` | src/competitor/artolc_old/src/N.cpp:319-328 | after addPrefixBefore the stored bytes are the first bytes of the joined prefix, for all lengths |
| `ArtRemove.CollapseIsCorrect` | src/competitor/artolc_old/src/Tree.cpp:506-543 | a node left with one child is replaced by that child, which keeps all its keys |
| `ArtRemove.DropIsCorrect` | src/competitor/artolc_old/src/N.cpp:204-236 | removal from a larger node, with or without shrinking, takes exactly the leaf away |
| `ArtRemove.RemoveIsCorrect` | src/competitor/artolc_old/src/Tree.cpp:460-555 | remove keeps the tree well formed and takes away exactly the identifier, if it is there |
| `ArtMap.TreeIsMap` | src/competitor/artolc_old/src/Tree.cpp:351-555 | after any sequence of inserts and removals the tree agrees with a finite map |
| `ArtMap.LookupAfter` | src/competitor/artolc_old/src/Tree.cpp:32-89 | and a lookup returns what the map has for the key, or 0 |
| `ArtLayouts.N4.Insert` | src/competitor/artolc_old/src/N4.cpp:22-30 | the table of children has the new entry and is otherwise unchanged |
| `ArtLayouts.N4.Change` | src/competitor/artolc_old/src/N4.cpp:39-48 | one entry is replaced |
| `ArtLayouts.N4.GetChild` | src/competitor/artolc_old/src/N4.cpp:50-57 | the entry for the byte, or null |
| `ArtLayouts.N4.Remove` | src/competitor/artolc_old/src/N4.cpp:59-68 | one entry is cleared |
| `ArtLayouts.N4.GetSecondChild` | src/competitor/artolc_old/src/N4.cpp:82-89 | the only other entry of two |
| `ArtLayouts.N16.Insert` | src/competitor/artolc_old/src/N16.cpp:16-26 | the same table semantics with flipped keys and signed comparison |
| `ArtLayouts.N16.Change` | src/competitor/artolc_old/src/N16.cpp:35-40 | one entry is replaced |
| `ArtLayouts.N16.GetChild` | src/competitor/artolc_old/src/N16.cpp:42-60 | the entry for the byte, or null |
| `ArtLayouts.N16.Remove` | src/competitor/artolc_old/src/N16.cpp:62-70 | one entry is cleared |
| `ArtLayouts.N48.Insert` | src/competitor/artolc_old/src/N48.cpp:15-23 | a free slot is found and the table has the new entry |
| `ArtLayouts.N48.Change` | src/competitor/artolc_old/src/N48.cpp:34-37 | one entry is replaced |
| `ArtLayouts.N48.GetChild` | src/competitor/artolc_old/src/N48.cpp:39-45 | the entry for the byte, or null |
| `ArtLayouts.N48.Remove` | src/competitor/artolc_old/src/N48.cpp:47-53 | one entry is cleared and its slot can be reused |
| `ArtLayouts.N256.Insert` | src/competitor/artolc_old/src/N256.cpp:24-27 | one entry is set and the one-byte count stays the number of entries modulo 256 |
| `ArtLayouts.N256.Change` | src/competitor/artolc_old/src/N256.cpp:38-41 | one entry is replaced |
| `ArtLayouts.N256.GetChild` | src/competitor/artolc_old/src/N256.cpp:43-45 | the entry for the byte, or null |
| `ArtLayouts.N256.Remove` | src/competitor/artolc_old/src/N256.cpp:47-50 | one entry is cleared |
| `ArtLayouts.PairsSize` | src/competitor/artolc_old/src/N4.cpp:14-16 | the count of a sorted layout is the number of entries of its table |
| `ArtGrow.CopyN4ToN16` | src/competitor/artolc_old/src/N4.cpp:32-37 | the copy has the same table |
| `ArtGrow.CopyN16ToN48` | src/competitor/artolc_old/src/N16.cpp:28-33 | the copy has the same table |
| `ArtGrow.CopyN16ToN4` | src/competitor/artolc_old/src/N16.cpp:28-33 | the copy has the same table |
| `ArtGrow.CopyN48ToN256` | src/competitor/artolc_old/src/N48.cpp:25-32 | the copy has the same table |
| `ArtGrow.CopyN48ToN16` | src/competitor/artolc_old/src/N48.cpp:25-32 | the copy has the same table when there are at most 16 entries |
| `ArtGrow.CopyN256ToN48` | src/competitor/artolc_old/src/N256.cpp:29-36 | the copy has the same table when there are at most 48 entries |
| `ArtGrow.GrowN4` | src/competitor/artolc_old/src/N.cpp:92-124 | a full N4 becomes an N16 with all its entries and the new one |
| `ArtGrow.GrowN16` | src/competitor/artolc_old/src/N.cpp:92-124 | a full N16 becomes an N48 likewise |
| `ArtGrow.GrowN48` | src/competitor/artolc_old/src/N.cpp:92-124 | a full N48 becomes an N256 likewise |
| `ArtGrow.ShrinkN16` | src/competitor/artolc_old/src/N.cpp:204-236 | an underfull N16 becomes an N4 with all its entries but one |
| `ArtGrow.ShrinkN48` | src/competitor/artolc_old/src/N.cpp:204-236 | an underfull N48 becomes an N16 likewise |
| `ArtGrow.ShrinkN256` | src/competitor/artolc_old/src/N.cpp:204-236 | an N256 whose one-byte count says 37 becomes an N48 likewise |
| `ArtNode.GetChild` | src/competitor/artolc_old/src/N.cpp:151-172 | on a layout object that stores a node of the tree, the pointer at a byte leads to the child there and is null exactly when there is none |
| `ArtNode.Change` | src/competitor/artolc_old/src/N.cpp:69-90 | the layout then stores the node with another child at the byte |
| `ArtNode.InsertGrow` | src/competitor/artolc_old/src/N.cpp:92-124 | in place or in a copy of the next kind, the result stores exactly the value node after insertion, with its kind and every child |
| `ArtNode.RemoveAndShrink` | src/competitor/artolc_old/src/N.cpp:204-236 | in place or in a copy of the next smaller kind, the result stores exactly the value node after removal, with its kind and every other child |
| `ArtNode.GetSecondChild` | src/competitor/artolc_old/src/N.cpp:343-354 | on a layout that stores a node with two children, the byte and the child that the collapse of the value node keeps |

## Left out

- Weak memory effects, allocation and counter wrap-around beyond the stated widths: the machines are sequentially consistent and versions and epochs do not wrap.
- Floating point: cost models, regression, `get_floating_point_segment` and the mean squared error are not modelled; densities and the routing model are exact reals.
- 128-bit arithmetic in `pgm_metric.h`: slopes and cross products are mathematical integers, so overflow is not captured.
- PgmMetric.ComputePgmMetric: sorts with an insertion sort in place of the library sort.
- EpochSafety.NoUseAfterFree: the callback, its context and the publication of a slot's fields are one step; `ReserveItem`, `ResetItem`, `Uninitialize` of the shared ring and the persistent-memory paths are not modelled.
- LocalGarbage.GarbageListUnsafe.Push: the endless retry loop is cut after one fruitless lap and reported as a result that says it would never end; other threads neither enter nor leave their regions, nor bump the epoch, during the call.
- BTreeSafety.LookupAnswers: the uninitialised return value of a lookup that does not find its key is not modelled; the found branch is.
- BTreeSafety.InvStep: the changes made while a node is locked take effect in one step, since no validated read can tell; `scan` is not modelled.
- BTreeAlone.InsertAloneEnds: node sizes are those of 8-byte keys and values, 255 entries in a leaf and 254 separators.
- ModelNodeLock.InvStep: the load of the word and of the obsolete flag are one step.
- AlexNode.AlexDataNode.Insert: the cost model's verdicts and the retrained model are inputs; the statistics counters and the minimum and maximum key are not modelled.
- AlexNode.AlexDataNode.BulkLoadFromExisting: the trained model and its adjustment for append-mostly nodes are one arbitrary function; the pairs of the range are collected before they are placed; the minimum and maximum key are not modelled.
- AlexLeafSplit.SplitSideways: the multi-way split, `expand_root`, `split_upwards` and leaf links are not modelled; children are told apart by numbers that stand for their addresses; rounding is not modelled, only that the correction loop is right from any start that is not too far to the right.
- AlexFanout.MergeNodesUpwards: the costs only decide which pairs are merged and are an arbitrary function; the returned cost is not modelled.
- ArtTree.InsertIsCorrect: the tree is a value; each node's change is tied to its layout object, but the writes of prefixes in place, locking and restarts are not captured; operations run one at a time, keys have one length and `loadKey` is a function. `lookupRange` is not modelled.
- ArtLayouts.N16.Insert: the vector comparison is a loop over the same bytes.
- The benchmark driver, flags, timing, generators and the adapters of the other indexes are not modelled.
