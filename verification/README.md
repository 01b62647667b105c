# AeroSync, verified in Dafny

This project models the stateful algorithms at the centre of the AeroSync kernel and proves, for
every input and every run, what they are for.  Each component has a simple abstract counterpart
that the code is shown to refine.

| component | files | abstract counterpart |
|---|---|---|
| buddy page allocator, one zone | `Powers`, `BuddyBlocks`, `PageLedger`, `PageAlloc` | the set of free page frames and the live blocks |
| tree RCU grace periods | `RcuTopology`, `RcuTree`, `RcuEntry`, `RcuProgress`, `RcuRoots`, `RcuWide`, `RcuWitness` | a history of starts, quiescent states and completions |
| red-black insertion and erasure | `RbTree`, `RbErase` | balanced trees and their in-order sequence |
| maple tree stores, gaps and walks | `MapleRuns`, `MapleLeaf`, `MapleTree`, `MapleGaps`, `MapleStore` | a map from 64-bit indices to entries |
| radix tree with tags | `RadixShape`, `RadixSteps`, `RadixRemovals`, `RadixTags`, `RadixDelete`, `RadixTree` | a finite map and three sets of tagged indices |
| resource domains | `ResControl`, `ResDomain`, `ResExact` | outstanding charges per domain |
| kernel log over a byte ring | `RingBuf`, `Log` | the sequence of logged records |
| per-CPU allocator over word bitmaps | `Bitmap`, `Percpu` | disjoint live allocations |
| CRC-32 | `Crc32` | the bit-serial division register |

`Machine` holds the 64-bit word and its bounds, `Options` the option type.

## How the code is represented

- A section that the kernel runs under one lock is one atomic step.  In `RcuTree` every lock-held
  section of starting a grace period, noticing a quiescent state and climbing is a step of its own,
  with the unlocked reads between them, and all interleavings are covered.  One step covers more than the code makes
  atomic: marking a CPU at a start (`MarkCpu`) is two unlocked writes, of its sequence number and of its pending flag.
- Linked structures are memories: a field of type `map` from pointers to node records, which the
  methods update record by record.  `RbTree`, `MapleTree` and `RadixTree` are of this kind.  The shape
  of a structure is stated by invariants on that memory, never assumed of the code.
- A machine word in `Bitmap`, a tag bitmap in `RadixTree` and an RCU mask is the set of its one bits.  64-bit
  wrap-around is written out where the code can reach it (`RadixShape.MaxIndex`, `ResDomain.Wrap`).
- A radix tree node's shift is modelled as its level, six bits per level.
- Node allocation always succeeds and returns zeroed slots and tags.

## Results that differ from the intent

- `__rmqueue_fallback` runs its order counter below zero for requests of order 0, because the counter
  is unsigned.  The model gives this its own outcome, `Overrun`; `PageAlloc.Zone.Rmqueue` states that it
  happens exactly for order 0 with nothing to take or borrow, and `PageAlloc.InitialValid` is a state
  in which it does.
- The scan that moves further blocks of a stolen pageblock never finds one
  (`PageAlloc.StealScanFindsNothing`).
- `log_read` with a buffer too small for the record leaves the rest of the payload in front of the
  next header: the guard of its skip never holds.  `Log.Log.Read` states which bytes remain, and that they are a
  suffix of what was logged exactly if the buffer is longer than the payload; `Log.ShortRead` is a failing read.
- The hierarchy of RCU nodes is capped at four levels, and RCU masks are 64-bit words, while the configured fanout has
  no upper bound.  `RcuRoots.GuaranteedIff` states that in a built tree every grace period waits for every CPU online
  throughout, in every run, exactly if the CPU count is at most the fourth power of the fanout, and the fanout or the
  CPU count is at most 64.  Otherwise some run completes one without such a CPU: several roots each complete it on
  their own, or CPU 64 clears the bit of CPU 0 in a leaf of more than 64.  `RcuTopology.OneRootIff` is the part about
  roots, and `RcuWide.HonestIff` the part about masks.  Shift counts of 64 or more, which C leaves undefined, are taken
  modulo 64 as the x86-64 shift instruction does.
- A grace period does not always wait for a CPU to enter `rcu_qs` after it began.  `rcu_qs` reads the CPU's
  sequence number after releasing the leaf's lock, so a call that was between the two at the start can
  report for it.  `RcuWitness.EntryMissed` is such a run.  `RcuProgress.WaitsForEntryIff` gives the exact
  condition: the grace periods that begin in a state wait for a CPU's entry exactly if none of its calls
  stands at that point.  `RcuTree.GracePeriodGuarantee` holds without the condition, for a step of
  `rcu_qs` in place of an entry.
- `__free_one_page` notices a double free only by the flag of the block's first page.  `PageAlloc.Zone.FreeOnePage`
  states that otherwise the zone stays valid exactly if no frame of the block was free.  `PageAlloc.DoubleFree` frees the
  second page of a free pair: two free blocks overlap, and lists, flags and counters agree.
- `pcpu_alloc` keeps unit counts in an `int`.  `Percpu.UnitsHoldSize` states for which sizes the count is right.  For a
  size whose count is cut off to zero, `Percpu.Area.Alloc` states which unit is returned, namely the first clear one
  rounded up, that it is not taken, and that the count of a live allocation is lost exactly if one begins there.
  `Percpu.NothingTaken` gets the same unit twice for a size of 2^36, and `Percpu.CountLost` loses a count.
- Memory charges are compared with the limit after 64-bit wrap-around.  `ResExact.FitsIff` states that the comparison
  admits what the exact one admits and, besides, only charges for which a sum wraps.  `ResExact.WrapAdmitted`
  charges 2^64 - 10 bytes to a domain with a limit of 100.

## Model

| member | source | states |
|---|---|---|
| `BuddyBlocks.BuddyFacts` | mm/page_alloc.c:186-188 | for every order and every aligned frame, the frame number with the order bit flipped starts the other half of one block of the next order, which starts at the conjunction of the two, and the buddy's buddy is the frame itself |
| `BuddyBlocks.HalvesAreBuddies` | mm/page_alloc.c:245-250 | the halves into which a block is split are each other's buddies and aligned to their order |
| `BuddyBlocks.CanonicalUnique` | mm/page_alloc.c:452-514 | two sets of free blocks without free buddy pairs below the top order that cover the same frames are equal: the free block set depends only on which frames are free |
| `BuddyBlocks.RemoveBlock` | mm/page_alloc.c:366-377 | removing a block keeps the set free of buddy pairs and uncovers exactly its frames |
| `BuddyBlocks.AddBlock` | mm/page_alloc.c:502-510 | adding an uncovered aligned block whose buddy is not free keeps the set aligned, disjoint and free of buddy pairs |
| `PageAlloc.LinkValid` | mm/page_alloc.c:250-264 | putting a block on its list with flag, order, counters and filter bit keeps the whole zone invariant and adds exactly its frames |
| `PageAlloc.UnlinkValid` | mm/page_alloc.c:366-377 | taking a block off its list keeps the whole zone invariant and removes exactly its frames; the counters cannot underflow |
| `PageAlloc.SkipIsSafe` | mm/page_alloc.c:887-888 | a zone whose order bound is below the request has nothing to offer, in any list the unfiltered search would look at |
| `PageAlloc.BuddyInZone` | mm/page_alloc.c:186-198 | in a zone aligned to the top order a buddy below the top order never leaves the zone |
| `PageAlloc.MergeStep` | mm/page_alloc.c:479-500 | one round of coalescing keeps the frames free or being freed the same, and the merged block uncovered |
| `PageAlloc.StealScanFindsNothing` | mm/page_alloc.c:306-339 | when a block of at least pageblock size is stolen no other free block starts inside it, so the scan changes nothing |
| `PageAlloc.AllocFreeRoundTrip` | mm/page_alloc.c:350-514 | whatever was split, stolen or merged, freeing the block that was allocated leads back to the identical set of free blocks |
| `PageAlloc.InitialValid` | mm/page_alloc.c:268-289 | a zone with no free frame satisfies the invariant, and every request on it is exhausted, which for order 0 is the overrun case |
| `PageAlloc.Zone.Expand` | mm/page_alloc.c:241-266 | splitting keeps the invariant, frees exactly the frames outside the kept low block, and leaves that block aligned and uncovered |
| `PageAlloc.Zone.LowerMaxFreeOrder` | mm/page_alloc.c:379-384 | lowering the order bound keeps it an upper bound on every order with a free block |
| `PageAlloc.Zone.ClearFreeAreaBit` | mm/page_alloc.c:86-90 | clearing a filter bit of an empty list keeps the filter an over-approximation of the non-empty lists |
| `PageAlloc.Zone.RmqueueFallback` | mm/page_alloc.c:268-348 | a block is borrowed from the highest order and the first type in the fallback table that has one; it fails exactly if every fallback list from the requested order up is empty, and overruns exactly if moreover the order is 0 |
| `PageAlloc.Zone.Rmqueue` | mm/page_alloc.c:350-392 | the filtered search takes the head of the lowest sufficient list of the own type, borrows exactly if there is none, and succeeds exactly if the unfiltered search would; the frames taken were free and are exactly the ones missing afterwards; the block was not live and is the one live block added |
| `PageAlloc.Zone.AllocFromZone` | mm/page_alloc.c:887-888 | skipping the zone by its order bound fails exactly when the unfiltered search would |
| `PageAlloc.Zone.FreeOnePage` | mm/page_alloc.c:452-514 | for every aligned block of the zone: the call panics, changing nothing, exactly if the first page is flagged free; otherwise the zone stays valid exactly if no frame of the block was free, and then exactly its frames have become free and no free buddy pair is left; lists, flags and counters agree in any case |
| `PageAlloc.Zone.Release` | mm/page_alloc.c:452-514 | returning any live block, or giving the allocator frames it never had, needs nothing else: it does not panic, keeps the zone valid, frees exactly the block's frames and ends exactly that block's life |
| `PageAlloc.Zone.Verify` | mm/page_alloc.c:1340-1380 | the allocator's own consistency check passes in every state that satisfies the invariant |
| `PageAlloc.AllocThenFree` | mm/page_alloc.c:350-514 | the round trip as code: the free blocks and the live blocks after allocating and freeing are the ones before, and the allocation succeeds exactly if the request is not exhausted |
| `PageAlloc.AddsUp` | mm/page_alloc.c:1340-1380 | in every accounted zone free pages, live pages and pages never given to the allocator add up to the zone, and the counter is the number of free frames |
| `PageAlloc.Serve` | mm/page_alloc.c:350-514 | over any sequence of requests up to the first overrun, which needs a request of order 0 with nothing to take or borrow, live blocks stay aligned, pairwise disjoint and disjoint from free frames, and free plus allocated pages is constant |
| `PageAlloc.DoubleFree` | mm/page_alloc.c:452-514 | freeing the second page of a free pair does not panic and leaves an invalid zone whose lists, flags and counters agree |
| `PageLedger.HandOut` | mm/page_alloc.c:350-392 | handing out a free aligned block keeps free frames, live blocks and kept frames a partition of the zone, and the block was not live |
| `PageLedger.TakeBack` | mm/page_alloc.c:452-514 | returning a live block keeps the partition |
| `PageLedger.LiveApart` | mm/page_alloc.c:350-392 | two live blocks share no frame, and no frame of a live block is free |
| `PageLedger.Conserved` | mm/page_alloc.c:1340-1380 | free frames, two to the order summed over the live blocks, and kept frames add up to the size of the zone |
| `RcuTopology.LevelSizes` | aerosync/rcu.c:43-49 | level sizes are repeated rounded-up quotients, and the top level has one node exactly if the CPU count is at most the fanout to the fourth power |
| `RcuTopology.Build` | aerosync/rcu.c:50-90 | every node of the flat array gets the level, parent, CPU range and position that its place in the hierarchy demands |
| `RcuTopology.ChildCount` | aerosync/rcu.c:263-281 | the number of bits an inner node waits for is the number of its children, also at the ragged right edge |
| `RcuTopology.BuiltIsWellLinked` | aerosync/rcu.c:37-93 | for any CPU count and any fanout, parent indices, child positions and leaf ranges are consistent: a node's position is among those its parent waits for, every position waited for belongs to a child, and a leaf's range is exactly its CPUs; there is one root exactly if the top level has one node |
| `RcuTopology.OneRootIff` | aerosync/rcu.c:37-93 | a built tree has a single root exactly if the CPU count is at most the fanout to the fourth power |
| `RcuTopology.NarrowIff` | aerosync/rcu.c:229-233 | all positions lie inside a 64-bit word, and no two CPUs of a leaf have the same bit, exactly if the fanout or the CPU count is at most 64 |
| `RcuTree.BeginKeeps` | aerosync/rcu.c:242-246 | starting a grace period keeps the invariant |
| `RcuTree.InitNodeKeeps` | aerosync/rcu.c:249-284 | initialising one node's mask, computed in 64 bits, keeps the invariant while other nodes still carry the previous grace period |
| `RcuTree.LeafReportKeeps` | aerosync/rcu.c:162-219 | a CPU's report to its leaf, as a shifted 64-bit one, keeps the invariant, including a stale report that changes nothing |
| `RcuTree.NodeReportKeeps` | aerosync/rcu.c:162-219 | a report to an inner node, and completion at the root, keep the invariant |
| `RcuTree.ReadParentKeeps` | aerosync/rcu.c:208-217 | reading the parent's sequence number between two lock-held sections keeps the invariant |
| `RcuTree.QsStepKeeps` | aerosync/rcu.c:224-240 | noticing a quiescent state and then reading the sequence number keep the invariant |
| `RcuTree.StepKeeps` | aerosync/rcu.c:162-296 | every step of every actor keeps the invariant |
| `RcuTree.RunKeeps` | aerosync/rcu.c:162-296 | every state of every run of a tree with one root whose positions fit the word satisfies the invariant |
| `RcuTree.RootFinishedMeansAllQs` | aerosync/rcu.c:179-217 | when the root's mask is empty every CPU online since the start has been in a step of rcu_qs since |
| `RcuTree.GracePeriodGuarantee` | aerosync/rcu.c:162-296 | over every interleaving in such a tree, a step that makes completed_seq become g is preceded by the start of g, no other start lies between, and every CPU online throughout has executed a step of rcu_qs since that start |
| `RcuTree.CompleteIffLeavesFinished` | aerosync/rcu.c:179-217 | with no report climbing, the grace period is complete exactly if every leaf is finished |
| `RcuTree.NoReportLost` | aerosync/rcu.c:179-282 | if every leaf covered an online CPU at the start, then once all leaf bits are clear and nothing is climbing the grace period is complete |
| `RcuEntry.SetupGuarantee` | aerosync/rcu.c:162-296 | a grace period that completes has seen every CPU that was online when its leaf was set up, even if it has gone offline since, execute a step of rcu_qs |
| `RcuEntry.ThroughoutIsAtSetup` | aerosync/rcu.c:162-296 | a CPU online at the start that has not gone offline is online when its leaf is set up |
| `RcuEntry.EntryGuarantee` | aerosync/rcu.c:162-296 | a grace period that completes has seen every CPU that was online when its leaf was set up enter rcu_qs after the start, unless a call of it was between the unlock and the read at the start |
| `RcuEntry.GracePeriodEntry` | aerosync/rcu.c:162-296 | both guarantees at every step of every run that makes completed_seq change, together with the step that began the grace period |
| `RcuProgress.CoveredCanComplete` | aerosync/rcu.c:162-296 | from every reachable state in which every leaf has an online CPU, a grace period that begins can be completed |
| `RcuProgress.WaitsForEntryIff` | aerosync/rcu.c:224-240 | for every such state and online CPU, all grace periods that begin there, find the CPU online at its leaf's set-up and complete wait for the CPU's entry exactly if no call of it has noticed the previous one but not read the sequence number |
| `RcuRoots.Unguarded` | aerosync/rcu.c:162-296 | in a tree with two roots, or with fanout and CPU count above 64, some run completes a grace period without a CPU that is online throughout |
| `RcuRoots.GuaranteedIff` | aerosync/rcu.c:37-296 | for every CPU count and fanout: in every run of the built tree every complete grace period has seen every CPU online throughout in rcu_qs, exactly if the CPU count is at most the fanout to the fourth power, and the fanout or the CPU count is at most 64 |
| `RcuWitness.EntryMissed` | aerosync/rcu.c:224-240 | a run of 23 steps with two CPUs whose second grace period completes without CPU 1, online throughout, entering rcu_qs |
| `RcuWide.WideSpoils` | aerosync/rcu.c:179-196 | for every tree with more than 64 CPUs and a fanout above 64 some run finishes leaf 0, and the grace period if that is a root, without CPU 0, online throughout, being in rcu_qs |
| `RcuWide.HonestIff` | aerosync/rcu.c:179-233 | in every run of a built tree with one root every CPU online since the start has its bit set or has been in rcu_qs, exactly if the fanout or the CPU count is at most 64 |
| `RbTree.RotationInorder` | lib/rbtree.c:153-181 | a rotation keeps the in-order sequence, whatever the colours |
| `RbTree.PlugRedBlack` | lib/rbtree.c:83-106 | a position that accepts a subtree's black count and colour makes the whole tree red-black |
| `RbTree.Unplug` | lib/rbtree.c:225-240 | conversely, at every position of a red-black tree the rest of the tree accepts exactly what is there |
| `RbTree.FlipPending` | lib/rbtree.c:116-136 | insertion with a red uncle: recolouring moves the pending red node two levels up and leaves the rest red-black |
| `RbTree.CaseOneShort` | lib/rbtree.c:236-262 | erasure with a red sibling: the rotation keeps the deficit where it is, under a red parent and with a black sibling |
| `RbTree.CaseTwo` | lib/rbtree.c:263-291 | erasure with a black sibling and black nephews: the deficit moves to the parent, or disappears if the parent was red or is the root |
| `RbTree.CaseFour` | lib/rbtree.c:292-351 | erasure with a red nephew: one or two rotations restore the black count and the order, on either side |
| `RbTree.RbTree.ChangeChild` | include/linux/rbtree_augmented.h:215-228 | exactly the pointer that led to the old child, in the parent or in the root, leads to the new one |
| `RbTree.RbTree.RotateSetParents` | lib/rbtree.c:73-81 | parent pointers and colours are exchanged and the one link from above is redirected; nothing else in memory changes |
| `RbTree.RbTree.FlipColors` | lib/rbtree.c:116-136 | three colours change in memory and the tree in memory is the recoloured one |
| `RbTree.RbTree.InsertRotate` | lib/rbtree.c:134-216 | the rotation cases of insertion, on either side, end in a red-black tree in memory with the same in-order sequence |
| `RbTree.RbTree.InsertColor` | lib/rbtree.c:83-219 | from a tree that is red-black but for a pending red node the loop ends in a red-black tree with the same nodes in the same order |
| `RbTree.RbTree.InsertAt` | lib/rbtree.c:432-435 | linking a red leaf at an empty position and rebalancing gives a red-black tree whose in-order sequence has the node at exactly that position |
| `RbTree.RbTree.EraseCaseOne` | lib/rbtree.c:236-262 | the pointer writes of erasure case 1, on either side, realise the rotation in memory |
| `RbTree.RbTree.EraseCaseTwo` | lib/rbtree.c:263-291 | the colour writes of erasure case 2: the loop climbs exactly if the parent was black and is not the root, and otherwise the tree is red-black |
| `RbTree.RbTree.EraseCaseFour` | lib/rbtree.c:292-351 | the pointer writes of erasure cases 3 and 4, on either side, end in a red-black tree with the same in-order sequence |
| `RbTree.RbTree.EraseColor` | lib/rbtree.c:225-406 | from a tree in which paths through one empty position are one black node short the loop terminates in a red-black tree with the same nodes in the same order |
| `RbErase.RemoveBalance` | include/linux/rbtree_augmented.h:240-263 | a lone child is red and its parent black, so giving it the parent's colour restores a red-black tree; without a child the tree is whole if the node was red or the root, and otherwise one black node short exactly there |
| `RbErase.SuccessorOrder` | include/linux/rbtree_augmented.h:265-309 | with the leftmost node of the right subtree in the node's place, the in-order sequence lacks exactly the node |
| `RbErase.SpliceIsMove` | include/linux/rbtree_augmented.h:265-327 | the interleaved pointer writes amount to taking the successor out of its place and then renaming the node to it: every other record and the root pointer agree |
| `RbErase.SpliceOk` | include/linux/rbtree_augmented.h:265-327 | after those writes memory holds the tree with the successor, in the node's colour, where the node was and the successor's child where it was, whether or not the successor is the node's own child |
| `RbErase.SpliceBalance` | include/linux/rbtree_augmented.h:319-325 | if the successor was red or had a child the result is red-black, and otherwise it is one black node short exactly where the successor was |
| `RbErase.UnlinkOne` | include/linux/rbtree_augmented.h:240-263 | memory holds the tree with the only child, in the node's colour, in its place; rebalancing starts at the parent exactly if there was no child and the node was black |
| `RbErase.Successor` | include/linux/rbtree_augmented.h:265-301 | the loop ends at the leftmost node of the right subtree, and the parent it returns is the one the successor's child is to have |
| `RbErase.Splice` | include/linux/rbtree_augmented.h:302-326 | the writes in source order give exactly that memory; rebalancing starts at the child's new parent exactly if the successor was black and had no child |
| `RbErase.Erase` | lib/rbtree.c:437-443 | for every position in every red-black tree, erasing ends in a red-black tree in memory with the other nodes in their order |
| `RbErase.EraseNode` | lib/rbtree.c:437-443 | for every node of a red-black tree the in-order sequence afterwards is the old one without exactly that node |
| `RbErase.InsertThenErase` | lib/rbtree.c:432-443 | inserting a node anywhere and erasing it again gives a red-black tree with the original in-order sequence |
| `MapleRuns.SpliceLookup` | lib/maple_tree.c:3312-3385 | replacing the runs a range touches by what is left of the first and last and one new run overwrites exactly the indices of the range |
| `MapleRuns.SpliceOrdered` | lib/maple_tree.c:3477-3490 | the pivots after that replacement are strictly increasing and still end at the node's maximum, and their number is the computed new end |
| `MapleRuns.SpliceNulls` | lib/maple_tree.c:3431-3464 | no two neighbouring runs are empty afterwards if an empty range is bounded by entries |
| `MapleLeaf.DataEndCorrect` | lib/maple_tree.c:1150-1168 | the data end decoded from the last pivot and the metadata is the number of the last slot in use, and metadata is read only where the last slot stores it |
| `MapleLeaf.WidenOk` | lib/maple_tree.c:3431-3464 | widening a null store only adds indices that were empty, and the widened range is bounded by entries |
| `MapleLeaf.TargetSplice` | lib/maple_tree.c:3700-3712 | the store at the possibly widened place overwrites exactly the range asked for and leaves no neighbouring empty runs and no empty last run except at the end of the index space |
| `MapleLeaf.ExactRuns` | lib/maple_tree.c:3562-3566 | overwriting the slot of an exactly fitting range is the splice |
| `MapleLeaf.AppendIsSplice` | lib/maple_tree.c:3500-3538 | the pivots and slots written by an append are the splice, whichever end of the last run the range touches |
| `MapleLeaf.SlotIsSplice` | lib/maple_tree.c:3389-3429 | moving run boundaries in place is the splice, for ranges over two or three slots |
| `MapleLeaf.NodeIsSplice` | lib/maple_tree.c:3312-3385 | the leaf rebuilt from copies of the old pivots and slots is the splice, with the pivot of the data end, the metadata and zeros after it |
| `MapleLeaf.LeafWrite.NodeWalk` | lib/maple_tree.c:1871-1893 | the walk stops at the run that contains the index and reports its bounds |
| `MapleLeaf.LeafWrite.FindEnd` | lib/maple_tree.c:3466-3475 | the end offset and pivot are those of the run that contains the last index |
| `MapleLeaf.LeafWrite.ExtendNull` | lib/maple_tree.c:3431-3464 | the write state after widening is the widened place, and still describes where it lies in the leaf |
| `MapleLeaf.LeafWrite.StrategyBySize` | lib/maple_tree.c:3700-3740 | the computed new end is the real one, and a store stays in the leaf exactly if it replaces one run, or if it is not the whole index space and the resulting runs fit the node and are enough for a node below the root |
| `MapleLeaf.LeafWrite.StoreExact` | lib/maple_tree.c:3562-3566 | the exact-fit strategy in memory is the splice of the old runs |
| `MapleLeaf.LeafWrite.StoreAppend` | lib/maple_tree.c:3500-3538 | the append strategy in memory is the splice of the old runs, with the new data end |
| `MapleLeaf.LeafWrite.StoreSlot` | lib/maple_tree.c:3389-3429 | the slot-store strategy in memory is the splice of the old runs |
| `MapleLeaf.LeafWrite.StoreNode` | lib/maple_tree.c:3312-3385 | the node-store strategy in memory is the splice of the old runs, with the new data end |
| `MapleLeaf.LeafWrite.GapSkip` | lib/maple_tree.c:3389-3429 | a strategy skips the gap update only if every run it touches is empty exactly when the new entry is |
| `MapleLeaf.LeafWrite.StoreEntry` | lib/maple_tree.c:3558-3593 | whichever in-leaf strategy was chosen, the result is the same splice; the other strategies leave this leaf to code outside the model |
| `MapleLeaf.LeafWrite.Store` | lib/maple_tree.c:3558-3740 | for every leaf, range and entry, an in-leaf store changes every lookup in the leaf exactly as asked, keeps the leaf well formed with its data end decodable, and skips the gap update only if the same indices are empty |
| `MapleTree.NodeDataEndCorrect` | lib/maple_tree.c:1150-1168 | the data end of nodes of all three kinds is decoded correctly |
| `MapleTree.ThroughSlot` | lib/maple_tree.c:2389-2446 | every index of a slot's interval is looked up through that slot |
| `MapleTree.ScanToEnd` | lib/maple_tree.c:2407-2430 | the range walk's scan up to the data end finds the slot whose interval contains the index, and that interval |
| `MapleTree.ScanToCapacity` | lib/maple_tree.c:3150-3158 | the quick walk's scan up to the pivot capacity finds the same slot, never one past the data end |
| `MapleTree.RangeWalk` | lib/maple_tree.c:2389-2446 | on every well-formed tree of any height the range walk returns the entry for the index, and the reported range is the leaf slot's whole interval, over which the tree holds that entry |
| `MapleTree.LookupWalk` | lib/maple_tree.c:3138-3170 | on every well-formed tree the quick walk returns the same entry as the tree's meaning, hence as the range walk |
| `MapleGaps.EarlyExit` | lib/maple_tree.c:1253-1265 | a trailing gap larger than everything before it is the largest |
| `MapleGaps.LeafMaxGap` | lib/maple_tree.c:1210-1280 | the leaf scan, which skips the slot after a gap and may stop early, returns the size of the largest empty run |
| `MapleGaps.SameNullsSameGap` | lib/maple_tree.c:3420-3428 | the gap of a leaf depends only on which indices are empty, so a skipped update is safe |
| `MapleGaps.ScanMax` | lib/maple_tree.c:1293-1309 | the backward scan returns a largest recorded gap and an offset where it is |
| `MapleGaps.GapTree.MaxGap` | lib/maple_tree.c:1317-1330 | the gap reported for a node is the largest of its recorded gaps, or of its leaf's empty runs |
| `MapleGaps.ReplaceGap` | lib/maple_tree.c:1356-1374 | whichever early exit is taken, the metadata points at a largest gap after one gap was replaced, the gap carried upwards is that maximum, and stopping means the maximum is unchanged |
| `MapleGaps.RecordStep` | lib/maple_tree.c:1356-1374 | writing a child's gap into its slot moves the only stale record one level up, and ends it if the node's maximum is the same |
| `MapleGaps.GapTree.RecordGap` | lib/maple_tree.c:1356-1374 | one round of the climb, with all its early exits, leaves at most the slot above stale; when it stops nothing is stale |
| `MapleGaps.GapTree.ParentGap` | lib/maple_tree.c:1342-1385 | for any height the climb ends with every slot of every node recording its child's gap and every metadata offset at a largest gap |
| `MapleGaps.GapTree.UpdateGap` | lib/maple_tree.c:1391-1409 | if only the slot leading to the changed node was stale, afterwards none is |
| `MapleGaps.GapIsLargestFree` | lib/maple_tree.c:1293-1330 | right gap data gives at every node the length of the longest stretch of consecutive free indices below it; no stretch crosses a slot boundary |
| `MapleGaps.RecordedGaps` | lib/maple_tree.c:1342-1385 | every slot of every branch records the longest free stretch of its own interval |
| `MapleGaps.SmallTreeGapsOk` | lib/maple_tree.c:1342-1410 | a tree of two levels whose gap data is right, so the conditions on trees can be met |
| `MapleStore.ReachedIffCovered` | lib/maple_tree.c:2389-2446 | the descent for an index ends in a leaf exactly if the leaf's interval contains the index |
| `MapleStore.StoredMeans` | lib/maple_tree.c:3558-3593 | overwriting a range in one leaf overwrites that range in the whole tree and nothing else |
| `MapleStore.ReplacedGaps` | lib/maple_tree.c:1391-1409 | after a leaf changed only the slot leading to it can hold a stale gap, and not even that one if the leaf's gap is the same |
| `MapleStore.WalkNode` | lib/maple_tree.c:1871-1893 | one round of the write walk in a node of any kind finds the slot that holds the index and its interval |
| `MapleStore.SpanningFacts` | lib/maple_tree.c:2985-3011 | the spanning test says exactly whether the store stays in the leaf, or in the slot of a branch |
| `MapleStore.WriteWalk` | lib/maple_tree.c:3035-3062 | the walk from the root ends in the leaf of the first index exactly if the store stays in that leaf, at whichever level it would find out |
| `MapleStore.StoreInLeaf` | lib/maple_tree.c:3558-3593 | the store into a given leaf, with its effect on every lookup in the tree and on all gap data |
| `MapleStore.StoreRange` | lib/maple_tree.c:3700-3740 | walk, store and gap update together: a store that does not stay in the leaf of its first index is left to the spanning strategy; otherwise, if the strategy stays in the leaf, the new tree is well formed, holds the entry on exactly the range, and every slot again records its longest free stretch |
| `RadixShape.FitsLevel` | lib/radix-tree.c:183-185 | comparing an index with the wrapping maximal index of a shift tells whether its digits above are zero, up to the full 64 bits |
| `RadixShape.HighUnique` | lib/radix-tree.c:72-79 | no two nodes of a level cover the same indices |
| `RadixShape.OnPath` | lib/radix-tree.c:690-721 | if an index lies below some node then its slot is in use in every node above on its path |
| `RadixShape.HoldsUnique` | lib/radix-tree.c:690-721 | an index holds at most one item |
| `RadixShape.Descend` | lib/radix-tree.c:72-79 | following an index one level down leads to the child that covers it, to its item, or proves it absent |
| `RadixTags.SlotBitExact` | lib/radix-tree.c:901-981 | a tag bit of a slot is set exactly if some item below the slot carries the tag |
| `RadixTags.RootBitExact` | lib/radix-tree.c:901-944 | the root's tag is set exactly if some item carries the tag |
| `RadixTags.MinimalMeans` | lib/radix-tree.c:422-493 | a tree with a head node holds an index that no lower tree could hold |
| `RadixTags.HeldBound` | lib/radix-tree.c:183-189 | every held index fits in 64 bits |
| `RadixTree.LevelFor` | lib/radix-tree.c:370-373 | the loop finds the lowest level that reaches the index, whose top digit is then not zero |
| `RadixTree.RadixTree.Find` | lib/radix-tree.c:690-721 | the descent returns the place of the index's item, or there is none |
| `RadixTree.RadixTree.Lookup` | lib/radix-tree.c:759-761 | the result is the map's value at the index, or empty |
| `RadixTree.RadixTree.Extend` | lib/radix-tree.c:364-416 | extending to the lowest sufficient height changes no item and no tag, and keeps shape, counts and tags exact |
| `RadixTree.RadixTree.Create` | lib/radix-tree.c:548-594 | the path to the index exists afterwards, contents are unchanged, and nothing was added unless the index held nothing |
| `RadixTree.RadixTree.Insert` | lib/radix-tree.c:649-670 | insertion adds exactly one binding, or changes no byte of the tree if the index is taken; the tree stays minimal with exact counts and tags |
| `RadixTree.RadixTree.NodeTagClear` | lib/radix-tree.c:927-944 | the climb, with its early exits, removes the tag from exactly one item and leaves every tag bit up to the root exact |
| `RadixTree.RadixTree.TagClear` | lib/radix-tree.c:960-981 | exactly the index loses the tag, and the result is the item at the index or empty |
| `RadixTree.RadixTree.TagSet` | lib/radix-tree.c:901-924 | exactly the index gains the tag, and all bits up to the root are exact again |
| `RadixTree.RadixTree.TagGet` | lib/radix-tree.c:1011-1036 | the result is whether the index is in the tag's set, for present and absent indices |
| `RadixTree.RadixTree.ShrinkTop` | lib/radix-tree.c:422-493 | shrinking ends in a tree of minimal height with the same contents and exact counts and tags |
| `RadixTree.RadixTree.DeleteNode` | lib/radix-tree.c:495-530 | freeing empty nodes up to the root and shrinking keeps contents, counts and tags and restores minimal height |
| `RadixTree.RadixTree.Delete` | lib/radix-tree.c:1292-1359 | deletion removes exactly the binding and its tags, or changes nothing if the index holds nothing or not the expected item; the tree stays minimal with exact counts and tags |
| `ResControl.LastWordDecides` | fs/resfs.c:83-118 | of all words that name a controller the last decides: it is enabled afterwards exactly if that word does not disable it and the controller is available |
| `ResControl.Untouched` | fs/resfs.c:83-118 | a controller that no word names keeps its setting |
| `ResControl.ReadWriteRoundTrip` | fs/resfs.c:58-73 | writing back the text read from the file restores the setting from any part of it |
| `ResDomain.ControllersReachUp` | aerosync/resdomain.c:429-453 | over every run, a domain's controllers are on every one of its ancestors |
| `ResDomain.ChargedAt` | aerosync/resdomain.c:524-569 | a charge adds the bytes to the domain and every ancestor and to no other domain |
| `ResDomain.ChargeUncharge` | aerosync/resdomain.c:524-579 | uncharging what was charged restores every usage exactly, also across 64-bit wrap-around |
| `ResDomain.ChargeBooked` | aerosync/resdomain.c:524-569 | after a charge every domain's usage is again its own outstanding charges plus its children's usage, modulo 2^64 |
| `ResDomain.RootHoldsAll` | aerosync/resdomain.c:524-579 | the root's usage is the sum of all outstanding charges of all domains, modulo 2^64 |
| `ResExact.ExactAccounts` | aerosync/resdomain.c:524-579 | if no domain has been uncharged more than it was charged and all outstanding charges add up to less than 2^64, every usage is exactly the domain's charges plus its children's usages, and the root's is exactly the sum of all |
| `ResExact.FitsIff` | aerosync/resdomain.c:524-569 | no limit on the path would be exceeded by the exact sum exactly if none would be by the wrapped sum and no sum wraps |
| `ResExact.ChargeWithinLimits` | aerosync/resdomain.c:524-569 | after an admitted charge that leaves all outstanding charges below 2^64, every limit on the path bounds the charges outstanding below it |
| `ResExact.WrapAdmitted` | aerosync/resdomain.c:524-569 | with 50 of 100 bytes in use a charge of 2^64 - 10 is admitted, after which the usage is 40 |
| `ResDomain.CreateOk` | aerosync/resdomain.c:429-453 | a new domain gets what its parent hands down, which keeps controllers closed upwards and accounts right |
| `ResDomain.Domains.constructor` | aerosync/resdomain.c:412-427 | the root domain starts with every controller and satisfies the invariant |
| `ResDomain.Domains.Create` | aerosync/resdomain.c:429-453 | creation under any domain, or under none, keeps the invariant |
| `ResDomain.Domains.SetMax` | aerosync/resdomain.c:174-190 | a new limit changes no account |
| `ResDomain.Domains.ChargeUp` | aerosync/resdomain.c:524-569 | the recursion is all or nothing: it succeeds exactly if there is no controller, it is forced, or no limit on the path would be exceeded; then the whole path is charged, and otherwise no usage has changed |
| `ResDomain.Domains.Charge` | aerosync/resdomain.c:524-569 | moreover every limit on the path is respected after an unforced success, and the accounts stay right |
| `ResDomain.Domains.Uncharge` | aerosync/resdomain.c:571-579 | the whole path is uncharged and the accounts stay right |
| `ResDomain.ScanWord` | fs/resfs.c:84-97 | the pointer loops return the next word of the text, its sign and its name, or that there is none |
| `ResDomain.Domains.SubtreeControlWrite` | fs/resfs.c:75-118 | the write has the effect of the words of the text in order, never hands down more than the domain has, and refuses texts of 128 bytes or more unchanged |
| `RingBuf.Ring.Write` | lib/ringbuf.c:79-100 | the contents grow by as many of the bytes as there is space for |
| `RingBuf.Ring.Peek` | lib/ringbuf.c:127-146 | the result is the front of the contents, which stay |
| `RingBuf.Ring.Skip` | lib/ringbuf.c:149-154 | the front of the contents is dropped |
| `RingBuf.Ring.Read` | lib/ringbuf.c:103-124 | the result is the front of the contents and the rest remains |
| `Log.DecodeEncode` | lib/log.c:41-46 | a sequence of framed records decodes to itself |
| `Log.Log.DropOldest` | lib/log.c:95-103 | whole records are dropped from the front, just as many as needed for the space wanted |
| `Log.Log.Write` | lib/log.c:235-289 | afterwards the ring holds whole records that are a suffix of everything logged and end with the new one, whose payload is cut only at the fixed limit, and one record fewer dropped would not have left room |
| `Log.Log.Read` | lib/log.c:399-432 | the oldest record is delivered; what did not fit of its payload stays in front of the later records; the ring holds whole records, or any suffix of what was logged, exactly if the buffer is longer than the payload |
| `Log.Remains` | lib/log.c:415-424 | the bytes left after a partly read payload equal the encoding of no suffix of the log |
| `Log.ShortRead` | lib/log.c:399-432 | a record of two bytes read into a buffer of two leaves one byte that decodes to no record |
| `Bitmap.FindNextZeroBit` | lib/bitmap.c:39-63 | every bit from the start to the result is set, and the result is clear unless it is past the end |
| `Bitmap.AlignUpLeast` | lib/bitmap.c:75-75 | adding a mask of ones and clearing its bits gives the least multiple of the alignment that is not smaller |
| `Bitmap.FindNextZeroArea` | lib/bitmap.c:65-88 | the result is the lowest aligned run of clear bits from the start on, and the size exactly if there is none; for an empty run it is the first clear bit rounded up, if that is inside |
| `Bitmap.SetRange` | lib/bitmap.c:90-107 | exactly the bits of the range are set and no other bit changes |
| `Bitmap.ClearRange` | lib/bitmap.c:109-126 | exactly the bits of the range are cleared and no other bit changes |
| `Percpu.AllocCovers` | aerosync/percpu.c:128-136 | marking a free run keeps live allocations disjoint and the set bits exactly theirs |
| `Percpu.UnitsHoldSize` | aerosync/percpu.c:120-124 | for every 64-bit size the computed units hold the bytes exactly if their number fits 32 bits |
| `Percpu.Area.Alloc` | aerosync/percpu.c:116-141 | with unit counts cut off to 32 bits: unless the size's count is zero a new allocation overlaps no live one, for a power-of-two alignment it is the lowest aligned free run, and null is returned exactly if there is none; if it is zero, the first clear unit rounded up is returned, or null exactly if that is outside, nothing is taken, its count becomes zero, and the area stays valid exactly if no live allocation begins there |
| `Percpu.NothingTaken` | aerosync/percpu.c:116-141 | a size of 2^36 gets the same unit twice, with nothing live |
| `Percpu.CountLost` | aerosync/percpu.c:116-141 | with units 0 and 2 of three live, a size of 2^36 aligned to 32 gets unit 2, whose count is lost |
| `Percpu.Area.Free` | aerosync/percpu.c:143-167 | a pointer into the first unit of a live allocation frees exactly it; any other pointer, in particular into a later unit, changes nothing |
| `Crc32.TableStep` | crypto/crc32.c:48-50 | one table lookup does what the bit-serial register does with the eight bits of a byte |
| `Crc32.RemaindersAdd` | crypto/crc32.c:44-53 | the register is linear: the state after a message is the sum of what the start value and the message alone leave, as the standard defines the check sequence |
| `Crc32.Table.constructor` | crypto/crc32.c:29-42 | every table entry is eight steps of the register from its index |
| `Crc32.Table.Compute` | crypto/crc32.c:44-53 | for every message the table-driven result is the bit-serial checksum |
| `Crc32.Hash.constructor` | crypto/crc32.c:55-58 | the running state starts as that of the empty message |
| `Crc32.Hash.Update` | crypto/crc32.c:60-66 | the running state is that of everything fed so far |
| `Crc32.Hash.Final` | crypto/crc32.c:68-72 | the output is the checksum of everything fed |
| `Crc32.Chunked` | crypto/crc32.c:55-72 | any way of cutting a message into pieces gives the one-shot checksum |

## Left out

- Deferred coalescing, per-CPU page lists, bulk allocation and zone fallback lists of the page allocator: one zone is modelled, its boundaries aligned to the top order.
- PageAlloc.StealScanFindsNothing: the pageblock type writes around the scan are not modelled, since no modelled code reads them.
- RCU callbacks, `call_rcu` and its kernel threads: a caller that queues while a grace period is running records that one, so the usual guarantee does not hold for it.
- RcuTree.NoReportLost: needs an online CPU under every leaf, because a leaf without one never reports although its parent waits for it.
- RcuTree.GracePeriodGuarantee: covers the CPUs that stay online, and `RcuEntry.SetupGuarantee` the others; sequence numbers do not wrap.
- RcuWide.WideSpoils: shows completion of the grace period if leaf 0 is a root; `RcuRoots.Unguarded` shows it for every tree.
- RcuWide.HonestIff: is about trees with one root; `RcuRoots.GuaranteedIff` is about all.
- Augmented callbacks and traversal functions of red-black trees.
- Maple tree spanning stores, splits, rebalancing, new roots, dense nodes and the destruction and duplication walks; dead nodes seen by concurrent readers.
- MapleLeaf.LeafWrite.Store: a range that spans leaves is excluded by its precondition; `MapleStore.WriteWalk` finds those.
- MapleGaps.LeafMaxGap: a leaf with a single slot, which never occurs below the root, is excluded because the source would read outside the node.
- MapleStore.StoreRange: the heights that the write walk notes for splits are not modelled.
- Radix tree iteration, IDR trees, multi-order entries, value-entry counts, preloading and retry entries for concurrent readers.
- RadixTree.RadixTree.TagSet: requires the item to be present, as the source's own comment does.
- Releasing domains, task attachment, direct reclaim during a charge, and the CPU, PID and I/O controllers of resource domains; controller allocation always succeeds.
- ResDomain.Domains.Charge: limits are compared with the usage after 64-bit wrap-around, as in the source; `ResExact.FitsIff` gives the exact comparison.
- Console output, recursion control and the drain thread of the log.
- Percpu.Area.Alloc: an alignment whose unit count is negative as an `int` is excluded, because the search then has no alignment mask and need not end; the number of units is assumed to fit the 16-bit counts; the address of the area and the per-CPU copies are not modelled.
- Bitmap.FindNextZeroArea: for an alignment mask that is not of the form 2^k - 1, only freedom of a non-empty run returned is stated; arguments whose sums would leave 64 bits are excluded.
- PageAlloc.Serve: stops at the first overrun, because the source then leaves its arrays.
- Memory ordering, interrupt masking and allocation failure.
- File systems, scheduling, drivers, boot code and the remaining cryptographic code.
