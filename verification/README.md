# A model of adlib

adlib is a C library of data structures with hand-tuned implementations. The files here model its most
intricate parts and prove what they promise. Each part is told in the form of the original: nodes are objects
whose links are rewritten, tables and heaps are arrays that are permuted in place, a lock is a system of atomic
steps. What a structure stands for (the sequence of a tree, the map of a hash table, the bytes of a heap) is a
ghost value, and every operation is proved against it.

| part | files |
|---|---|
| B-tree | `BTree*.dfy` |
| Robin Hood and quadratic hash table | `Hash*.dfy`, `RobinHood*.dfy`, `Triangular.dfy`, `Quadratic*.dfy` |
| AVL tree and red-black tree | `Binary{Tree,Packed,Turn,Splice,Unlink,Descent,Walk,Link}.dfy`, `Avl*.dfy`, `Rb*.dfy` |
| mutex, semaphore, queue lock, ticket lock | `Lock*.dfy` |
| memory allocator | `Heap{Blocks,Lists,Memory,Merge}.dfy`, `Heap.dfy` |
| binary heaps and introsort | `SortElements.dfy`, `HeapOrder.dfy`, `BinaryHeap*.dfy`, `Intro*.dfy` |
| linear hashing | `Linear*.dfy` |
| numbers as text, bounded random numbers, 128-bit numbers | `Division.dfy`, `Digits.dfy`, `Ilog10.dfy`, `ToChars.dfy`, `FromChars.dfy`, `RandomRange.dfy`, `Uint128.dfy` |

How the proofs are built:

- A B-tree in memory is tied to a ghost tree by `Rep`, and a path into it is a list of frames around a hole
  (`RepP`, `Rebuild`). `Flat` is the sequence of items in order; occupancy and height are `Shape`. Insertion is also
  defined once more, by recursion on trees without nodes (`BTreeBare`); the loops leave exactly that tree.
- AVL and red-black trees share the pointer layer. A ghost map from nodes to cells mirrors the fields
  (`Mirrors`), `Linked` says that cells form a tree with agreeing parent links, and `Focus` that a subtree is in
  place below a context. Rotations, splices and repairs are proved once for both directions.
- A hash table in the middle of an in-place rehash is described by the slots that have been placed
  (`Ordered`, `Reachable`) and by one entry in hand; `Conserved` says that nothing is lost or doubled.
- Locks are state machines. `Run` is a run of any length with any number of threads, starting from the
  initialised lock; one step is one atomic operation or one futex call, in sequentially consistent order.
  A futex wait may wake up spuriously at any time.
- The allocator's memory is a set of block headers by address, the mappings they lie in, and the bytes.

What the code does beside what its documentation says, or may be expected to do:

- The size class of a free block is the number of trailing zeros of its size and not its logarithm, so a request
  can be turned down although a large enough free block is there (`Heaps.TurnedDown` is such a heap and request;
  `Heaps.Heap.FindFreeBlock` says exactly when).
- The last 15 sizes below 2^64 wrap around when the block size is computed, so that malloc returns a block that is too
  small (`Heaps.Heap.Malloc`: large enough if and only if the size is at most 2^64 - 16). The size of a mapping wraps
  around too; `HeapMemory.MapIsEnough` says exactly when.
- `ticketlock_try_lock` can succeed on a held lock if 2^32 tickets are drawn between its load of `cur` and its
  compare-and-swap (`LockTicket.Overtaken` is such a run; `LockTicket.TryIntrudes` says exactly when a successful
  compare-and-swap lets in a second thread, and `LockTicket.TrySucceeds` when it is right).
- `semaphore_post` on a full count loses all units (`LockSemaphore.Overflow`; `LockSemaphore.Conservation` gives
  the exact condition).
- In the sort, the limit of bad partitions wraps around after the first fallback to heapsort, so that of fewer than
  2^64 further bad partitions none leads to a fallback (`Introsort.FallbackOnce`). The result is sorted all the same.

## Model

| member | source | states |
|---|---|---|
| BTreeNode.MemMove | src/btree.c:364-394 | cells end up as they were at the source range, also when the ranges overlap; everything else stays |
| BTreeNode.Node.InsertAt | src/btree.c:597-603 | a node with room gets the item at its place and the new child right behind it; nothing else changes |
| BTreeNode.Node.RemoveAt | src/btree.c:449-451 | a leaf loses exactly the item at the index |
| BTreeNode.Node.RemoveSeparator | src/btree.c:472-475 | a parent loses the separator and the child to its right |
| BTreeNode.Node.SplitAndInsert | src/btree.c:527-586 | old node, median and new node together hold what the full node held with the item (and the new right child) inserted; both halves have min_items items, in all three cases of where the item goes |
| BTreeNode.Node.Split | src/btree.c:624-641 | a full node of odd capacity is divided into two halves of min_items items and the median, nothing lost or reordered |
| BTreeSearch.LinearSearch | src/btree.c:120-143 | from both ends at once: finds the key if it is there, and otherwise its exact insertion index |
| BTreeSearch.NodeSearch | src/btree.c:94-147 | for any linear search threshold, the hybrid of binary and two-ended linear search finds the key or its exact insertion index |
| BTreeSearch.PointUnique | src/btree.c:94-147 | a sorted sequence has only one insertion index for a key |
| BTreeSiblings.Merge | src/btree.c:471-486 | left gets its own items, the separator and the right items, with all children; the parent loses the separator and the right child |
| BTreeSiblings.BorrowFromLeft | src/btree.c:487-496 | the last item of left goes up, the separator goes to the front of right, and the last child moves across |
| BTreeSiblings.BorrowFromRight | src/btree.c:497-507 | the first item of right goes up, the separator goes behind left, and the first child moves across |
| BTreeRepair.MergeKids | src/btree.c:471-486 | after a merge the memory of parent and children is the merged tree |
| BTreeRepair.MergeFlat | src/btree.c:471-486 | merging two children keeps the items and their order |
| BTreeRepair.BorrowLeftKids | src/btree.c:487-496 | after borrowing from the left sibling the memory is the tree with one item and one subtree moved |
| BTreeRepair.BorrowRightKids | src/btree.c:497-507 | the same for borrowing from the right sibling |
| BTreeRepair.RotateFlat | src/btree.c:487-507 | borrowing keeps the items and their order |
| BTreeUnderflow.PickNeighbours | src/btree.c:461-469 | the underfull child is repaired with its left neighbour exactly if it is the last child or the two together have fewer than max_items items, and with the right one otherwise |
| BTreeUnderflow.RepairChild | src/btree.c:458-507 | one repair: all children have regular occupancy again, the parent has the same items or one less, the order is kept |
| BTreeTree.TreeSize | include/btree.h:121-121 | a tree of height h holds at least 2 * (min_items + 1)^(h - 1) - 1 items |
| BTreeTree.PathEntriesSuffice | src/btree.c:404-404 | with fewer than 2^33 - 1 items the height is at most 32, so that the recorded path fits |
| BTreeSplitChild.SplitChild | src/btree.c:662-671 | splitting a full child of a node with room: the memory is the tree with the two halves around the median |
| BTreeSplitChild.AfterSplitFlat | src/btree.c:662-671 | splitting a child keeps the items and their order |
| BTreeInsertEven.InsertAndRebalanceEven | src/btree.c:588-622 | bottom-up insertion for even max_items: a regular tree again, one level higher exactly if the root was split, holding the old items and the new one in its place; it is the tree that dealing with one node after the other on the way up gives |
| BTreeInsertOdd.SplitDown | src/btree.c:662-679 | top-down splitting from the last node with room: every full node on the way is split, and the place of the new item is followed through every split |
| BTreeInsertOdd.InsertAndRebalanceOdd | src/btree.c:643-685 | top-down insertion for odd max_items, with the same result as for even max_items |
| BTreeBare.GrowUp | src/btree.c:588-622 | dealing with the nodes above the leaf one by one gives what the recursive definition of insertion gives for the whole tree |
| BTreeBare.OddUp | src/btree.c:643-685 | the recursive definition for odd max_items changes nothing above the last node with room |
| BTreeInsert.OddIs | src/btree.c:643-685 | the recorded last node with room is where the recursive definition begins to split |
| BTreeInsert.InsertAndRebalance | src/btree.c:687-694 | for every max_items >= 2: the tree stays regular, its sequence is the old one with the item at its insertion index, and its form is that of the recursive definition (`InsertedTree`) |
| BTreeWalk.WalkTo | src/btree.c:702-727 | the way down ends at the key or at the leaf and index where it belongs, and records the last node with room |
| BTreeWalk.WalkRight | src/btree.c:737-757 | the way down the right edge does the same for an item behind all others, and gives up exactly if the item is not behind all others |
| BTreeInsert.InsertItem | src/btree.c:696-730 | insertion adds exactly the new item, or overwrites the item with its key if asked to |
| BTreeInsert.InsertItemSequential | src/btree.c:732-760 | insertion at the right edge meets the same contract |
| BTreeDelete.SoughtAbsent | src/btree.c:411-417 | a key that is not found on the way down to a leaf is nowhere in the tree |
| BTreeDelete.SeekTo | src/btree.c:402-442 | the way down of a deletion in each mode: it ends at the leaf item to remove, and remembers the slot of an item found further up |
| BTreeDelete.TakeItem | src/btree.c:429-451 | an item in an inner node is replaced by its predecessor; the sequence loses exactly the item asked for, and that one is returned |
| BTreeDelete.MendOne | src/btree.c:453-510 | one round of the way up repairs the underfull node and keeps the sequence |
| BTreeDelete.Mend | src/btree.c:453-510 | afterwards every node but the root has regular occupancy, and the sequence is the one that deletion promises |
| BTreeDelete.ShrinkRoot | src/btree.c:514-521 | a root without items is replaced by its only child, and the tree gets one level lower |
| BTreeDelete.DeleteItem | src/btree.c:396-524 | key, min and max mode turn a regular tree into a regular tree whose sequence lacks exactly the deleted item, and return that item; a missing key changes nothing |
| BTrees.BTree.constructor | src/btree.c:276-279 | a new tree is valid and empty |
| BTrees.BTree.FewItems | src/btree.c:703-703 | the recorded path has room for 32 steps, which is enough for all trees with fewer than 2^33 - 1 items |
| BTrees.BTree.Insert | src/btree.c:696-730 | every insertion keeps the invariant (uniform leaf depth, occupancy, strict order), adds exactly one item or reports the existing one, and leaves the tree of the recursive definition |
| BTrees.BTree.InsertSequential | src/btree.c:732-760 | so does insertion meant for ascending keys; being the same function of the old tree, the new one is the same as after Insert |
| BTrees.BTree.Delete | src/btree.c:396-524 | every deletion keeps the invariant and removes exactly the right item |
| BTreeFind.FindItem | src/btree.c:326-344 | lookup returns the item with the key, and nothing only if there is none |
| BTreeFind.LeftmostRightmost | src/btree.c:346-362 | the first or the last item |
| BTreeIter.Start | src/btree.c:149-174 | the iterator stands on the first or the last item |
| BTreeIter.Next | src/btree.c:176-197 | from a recorded path to the next item in order, or past the end |
| BTreeIter.Prev | src/btree.c:199-220 | from a recorded path to the item in front, or past the beginning |
| BTreeIter.StartAt | src/btree.c:223-265 | each mode finds the exact inclusive or exclusive lower or upper bound, or says that there is none |
| BTreeIterators.Find | src/btree.c:326-344 | lookup on the tree object, also when it is empty |
| BTreeIterators.GetLeftmostRightmost | src/btree.c:346-362 | first or last item of the tree object, also when it is empty |
| BTreeIterators.BTreeIterator.Start | src/btree.c:149-174 | start on the iterator object |
| BTreeIterators.BTreeIterator.StartAt | src/btree.c:223-265 | start at a key on the iterator object; a key missed in the mode that asks for exactly this key leaves the path at the leaf where the key would go |
| BTreeIterators.BTreeIterator.Next | src/btree.c:176-197 | rank r becomes rank r + 1, exactly if there is one |
| BTreeIterators.BTreeIterator.Prev | src/btree.c:199-220 | rank r becomes rank r - 1, exactly if there is one |
| BTreeIterators.Forward | src/btree.c:149-197 | next from the leftmost item enumerates every item once, in order |
| BTreeIterators.Backward | src/btree.c:149-220 | prev from the rightmost item enumerates the reverse |
| BTreeIterators.ThereAndBack | src/btree.c:176-220 | next and then prev is back at the same item |
| BTreeDestroy.GravesItems | src/btree.c:302-306 | the items of the freed nodes are the items of the tree, each once |
| BTreeDestroy.GravesFoot | src/btree.c:297-323 | the nodes in the order of freeing are all nodes of the tree, and no node comes twice |
| BTreeDestroy.Earlier | src/btree.c:297-323 | whatever has been freed comes earlier in that order than the node at hand, so that no freed node is looked at or freed again |
| BTreeDestroy.GoToLeaf | src/btree.c:315-322 | down to the next leaf, by nodes that are not freed |
| BTreeDestroy.FreeUp | src/btree.c:301-314 | a node and every parent without further children are freed, children first |
| BTreeDestroy.FreeNodes | src/btree.c:281-324 | the loop frees exactly the nodes of the tree, in this order, and ends |
| BTreeDestroy.Destroy | src/btree.c:281-324 | every node is freed once, every item is destroyed once, and an empty tree is left |
| HashCapacity.MaxEntriesIs | src/hashtable.c:100-104 | the number of entries allowed is the given tenths of the capacity, rounded down |
| HashCapacity.MaxEntriesBounds | src/hashtable.c:100-104 | at least half of the slots may be used, but never all of them, so that a search ends |
| HashBits.SpreadsLow | src/hashtable.c:64-76 | after j steps a bit is set exactly if it or one of the 2^j - 1 bits above it was |
| HashCapacity.RoundUp | src/hashtable.c:64-76 | smearing bits gives the next power of two: of all words, for every capacity up to 2^31 |
| HashCapacity.SuitableCapacity | src/hashtable.c:1280-1283 | resize settles on a power of two that all entries fit in, and on no larger one than it has to |
| HashSlots.Enlarge | src/hashtable.c:1215-1241 | a larger table starts with the same slots and empty ones behind |
| RobinHood.EvenHomes | src/hashtable.c:106-115 | multiplying by 11 spreads the hashes evenly: for each k, each slot is the home of a hash of its own |
| RobinHood.DistBound | src/hashtable.c:980-985 | nothing is farther from home than the next free slot back, so that displacing ends |
| RobinHood.Swap | src/hashtable.c:1101-1117 | an entry that is nearer its home can be displaced by the one in hand, and goes on from the next slot |
| RobinHood.Rest | src/hashtable.c:1091-1098 | the entry in hand can rest in the first slot that is free for it |
| RobinHoodInsert.InsertRobinHood | src/hashtable.c:1082-1120 | the displacement chain ends; the order among placed entries is kept, entries are conserved, and an entry that still needs rehashing is handed back |
| RobinHoodRehash.PlaceEntry | src/hashtable.c:1191-1199 | an entry taken out of its slot, and every entry displaced for it, finds its place; the state of the pass is kept |
| RobinHoodRehash.RehashAll | src/hashtable.c:1243-1273 | the pass in the same array leaves the full Robin Hood order for the new capacity, and the same entries |
| RobinHoodSearch.ChainBack | src/hashtable.c:1046-1049 | from its home to an entry all slots are taken, by entries at least as far from home |
| RobinHoodSearch.StopHere | src/hashtable.c:1042-1049 | an empty slot or a smaller distance ends a search rightly: the key is nowhere in the table |
| RobinHoodSearch.Lookup | src/hashtable.c:1033-1058 | ends, and finds the key or shows that it is nowhere |
| RobinHoodSearch.DoInsert | src/hashtable.c:1122-1145 | makes room in one slot, keeps the order and all other entries |
| RobinHoodSearch.Displace | src/hashtable.c:1135-1141 | the displaced entry finds another place, with its old slot serving as the hand |
| RobinHoodTable.BackShift | src/hashtable.c:1310-1324 | backward-shift deletion ends at an empty slot or an entry at home, restores the order and keeps the other entries |
| RobinHoodTable.GrowStorage | src/hashtable.c:1210-1275 | growing keeps the map and establishes the order for the new capacity |
| RobinHoodTable.ShrinkStorage | src/hashtable.c:1147-1208 | so does shrinking |
| RobinHoodHashtable.Hashtable.constructor | src/hashtable.c:1002-1018 | a new table is valid and empty |
| RobinHoodHashtable.Hashtable.Lookup | src/hashtable.c:1033-1058 | finds a key exactly if it is in the map, with its value |
| RobinHoodHashtable.Hashtable.Insert | src/hashtable.c:1291-1300 | the map gets one more key; the capacity doubles exactly if there would be too many entries |
| RobinHoodHashtable.Hashtable.Remove | src/hashtable.c:1302-1326 | the map loses the key and nothing else; the capacity becomes a quarter, but not less than 8, exactly if fewer than an eighth of the slots are left in use |
| RobinHoodHashtable.Hashtable.Grow | src/hashtable.c:1210-1275 | same map, new capacity |
| RobinHoodHashtable.Hashtable.Shrink | src/hashtable.c:1147-1208 | same map, new capacity of at least 8 |
| RobinHoodHashtable.Hashtable.Resize | src/hashtable.c:1277-1289 | same map, at least the capacity asked for, and no larger one than that and the entries need |
| Triangular.ProbeInjective | src/hashtable.c:147-166 | in a power-of-two table no slot is probed twice in the first n advances |
| Triangular.ProbeSurjective | src/hashtable.c:147-166 | triangular probing visits every slot |
| Quadratic.ProbedBound | src/hashtable.c:160-166 | probing meets a given free slot in fewer than n advances |
| Quadratic.Withdraw | src/hashtable.c:471-476 | taking an entry out of a slot that stays busy leaves every other entry reachable |
| QuadraticSearch.StopHere | src/hashtable.c:227-258 | an empty slot ends a search rightly |
| QuadraticSearch.Lookup | src/hashtable.c:227-258 | ends, and finds the key or shows that it is nowhere |
| QuadraticSearch.DoInsert | src/hashtable.c:272-300 | takes the first empty slot or tombstone on the way, and keeps all entries reachable |
| QuadraticSearch.Buried | src/hashtable.c:474-476 | a tombstone keeps the table searchable |
| QuadraticResize.InsertDuringResize | src/hashtable.c:312-345 | the entry in hand takes the first slot that is empty or needs rehashing; the one that was there is handed back |
| QuadraticResize.ResizeCommon | src/hashtable.c:347-401 | the pass in the same array leaves the same entries, each reachable from its home by occupied slots only, and no tombstones |
| QuadraticHashtable.SearchEnds | src/hashtable.c:465-467 | entries and tombstones never fill the table, so every search ends |
| QuadraticHashtable.GrowStorage | src/hashtable.c:422-444 | growing, or clearing tombstones at the same capacity, keeps the map |
| QuadraticHashtable.ShrinkStorage | src/hashtable.c:403-420 | shrinking keeps the map |
| QuadraticHashtable.Hashtable.constructor | src/hashtable.c:196-212 | a new table is valid and empty |
| QuadraticHashtable.Hashtable.Lookup | src/hashtable.c:227-258 | finds a key exactly if it is in the map, with its value |
| QuadraticHashtable.Hashtable.Insert | src/hashtable.c:460-469 | the map gets one more key; the capacity doubles exactly if entries and tombstones would be too many |
| QuadraticHashtable.Hashtable.Remove | src/hashtable.c:471-482 | the map loses the key and nothing else; exactly when the table is shrunk, and exactly when it is cleared of tombstones |
| QuadraticHashtable.Hashtable.Grow | src/hashtable.c:422-444 | same map, new capacity, no tombstones |
| QuadraticHashtable.Hashtable.Shrink | src/hashtable.c:403-420 | same map, new capacity of at least 8, no tombstones |
| QuadraticHashtable.Hashtable.Resize | src/hashtable.c:446-458 | same map, at least the capacity asked for, and no larger one than that and the entries need |
| BinaryTree.DirOfChild | src/avl_tree.c:73-81 | which child of its parent a node is |
| BinaryTree.ChangeChild | src/avl_tree.c:58-71 | the one link to a node, from its parent or from the root, is redirected |
| BinaryWalk.First | src/rb_tree.c:107-116 | the first node in order, null for an empty tree |
| BinaryWalk.Next | src/rb_tree.c:118-135 | the node behind a node in order, null behind the last one |
| BinaryDescent.TakeNeighbour | src/avl_tree.c:217-249 | the neighbour in order, farther down than the child, takes the place of a removed node; every other link is as before |
| BinaryUnlink.Bypass | src/avl_tree.c:253-266 | a node with at most one child is bypassed |
| BinaryUnlink.TakeNear | src/avl_tree.c:228-240 | the child itself takes the place |
| BinaryUnlink.TakeFar | src/avl_tree.c:228-249 | a neighbour farther down takes the place, and leaves its own child behind |
| BinarySplice.NearOrder | src/avl_tree.c:228-240 | with the child in the place of the node, the order lacks exactly the node |
| BinarySplice.FarOrder | src/avl_tree.c:228-249 | so does the order with a neighbour from farther down |
| AvlRotate.SingleAvl | src/avl_tree.c:83-109 | a single rotation of a node with a side too high by two, the high child not leaning inwards, is balanced; its height drops by one exactly if that child leaned |
| AvlRotate.DoubleAvl | src/avl_tree.c:111-154 | a double rotation is balanced if the high child leans inwards; its height drops by one |
| AvlRotate.LeanCases | src/avl_tree.c:131-138 | the balances of a double rotation as computed without branches are the differences of heights |
| AvlRotate.SingleBalanceCases | src/avl_tree.c:95-107 | the branch-free balance of a single rotation is that of the case analysis |
| AvlRotate.DoubleBalanceCases | src/avl_tree.c:130-150 | the branch-free balances of a double rotation are those of the case analysis |
| AvlPointers.SingleRotate | src/avl_tree.c:83-109 | the pointer writes of a single rotation turn the subtree and set the computed balances |
| AvlPointers.DoubleRotate | src/avl_tree.c:111-154 | so do those of a double rotation |
| AvlTree.Rotate | src/avl_tree.c:156-168 | a node that is too high by two on one side is replaced by a balanced subtree with the same nodes in the same order, of the computed height |
| AvlInsert.RebalanceInsert | src/avl_tree.c:315-339 | the way up of an insertion ends in a balanced tree with the same order |
| AvlRemove.RebalanceRemove | src/avl_tree.c:268-297 | so does the way up of a removal |
| AvlDeletion.RemoveNode | src/avl_tree.c:200-298 | exactly one node leaves the tree; balances are exact and links agree |
| AvlTreeObject.AvlTree.InsertFirst | src/avl_tree.c:309-312 | the first node |
| AvlTreeObject.AvlTree.Insert | src/avl_tree.c:300-340 | the node comes directly before or behind its parent in order; every stored balance is the difference of heights and within -1..1 |
| AvlTreeObject.AvlTree.Remove | src/avl_tree.c:200-298 | the sequence loses exactly this node, and the tree no longer depends on it, so that it can go into this tree or another one again |
| AvlTreeObject.AvlTree.First | src/avl_tree.c:170-179 | the first node in order |
| AvlTreeObject.AvlTree.Next | src/avl_tree.c:181-198 | the next node in order |
| AvlTreeObject.AvlTree.Walk | src/avl_tree.c:170-198 | from the first node by next, every node comes once, in order, and then null |
| AvlTreeObject.Shallow | src/avl_tree.c:300-340 | the balances bound the depth: a tree of height h has at least Fib(h + 2) - 1 nodes |
| BinaryWalk.OrderOnce | src/avl_tree.c:170-198 | no node comes twice in order |
| BinaryPacked.AvlParent | src/avl_tree.c:36-50 | setting the parent in the packed word is read back, and keeps the balance |
| BinaryPacked.AvlBalance | src/avl_tree.c:41-56 | setting the balance in the packed word is read back, and keeps the parent |
| RbInsert.PushUp | src/rb_tree.c:344-348 | a red uncle: recolouring moves the only violation two levels up |
| RbInsert.TurnInner | src/rb_tree.c:312-323 | an inner grandchild is turned outside, its own parent pointer left stale on purpose |
| RbInsert.TurnOuter | src/rb_tree.c:325-339 | one rotation and two colours end the repair |
| RbInsert.RepairInsert | src/rb_tree.c:295-354 | in every mirrored case: a red-black tree again, with the same nodes in the same order |
| RbRemove.LowerParent | src/rb_tree.c:153-166 | a red sibling is turned up; the new sibling is black |
| RbRemove.Fade | src/rb_tree.c:168-182 | two black nephews: the sibling gets red, and the missing black is found in the parent or one level up |
| RbRemove.LiftInner | src/rb_tree.c:184-208 | only the inner nephew is red: two rotations end the repair |
| RbRemove.LiftOuter | src/rb_tree.c:197-208 | the outer nephew is red: one rotation ends the repair |
| RbRemove.RepairRemove | src/rb_tree.c:137-212 | a black node too few on one path is made up for, in every mirrored case |
| RbDeletion.CloseGap | src/rb_tree.c:223-238 | an only child gets the colour of the removed node, which is black; without a child a missing black node is repaired |
| RbDeletion.RemoveNear | src/rb_tree.c:239-273 | the right child itself is the successor and takes the place |
| RbDeletion.RemoveFar | src/rb_tree.c:245-273 | the successor farther down takes the place |
| RbDeletion.RemoveNode | src/rb_tree.c:214-278 | exactly one node leaves the tree; all red-black rules hold and links agree |
| RbTreeObject.RbTree.InsertFirst | src/rb_tree.c:287-291 | the first node |
| RbTreeObject.RbTree.Insert | src/rb_tree.c:280-355 | the node comes directly before or behind its parent in order; black root, no red node with a red child, equal black height |
| RbTreeObject.RbTree.Remove | src/rb_tree.c:214-278 | the sequence loses exactly this node, the rules still hold, and the tree no longer depends on the node |
| RbTreeObject.RbTree.First | src/rb_tree.c:107-116 | the first node in order |
| RbTreeObject.RbTree.Next | src/rb_tree.c:118-135 | the next node in order |
| RbTreeObject.RbTree.Walk | src/rb_tree.c:107-135 | from the first node by next, every node comes once, in order, and then null |
| BinaryPacked.RbWord | src/rb_tree.c:37-67 | setting parent or colour in the packed word is read back, and keeps the other one |
| BinaryPacked.RedParent | src/rb_tree.c:85-91 | the word of a red node is the parent itself |
| RbTreeObject.Shallow | src/rb_tree.c:280-355 | the rules bound the depth: a tree that is d deep has at least 2^(d/2) - 1 nodes |
| LockMutex.RunKeeps | staging/mutex.h:87-181 | every state of every run: at most one holder, the waiting word counts the announced threads, no sleeper on a free mutex without a helper |
| LockMutex.MutualExclusion | staging/mutex.h:87-181 | in every state of every run at most one thread holds the mutex, and the word is 1 exactly then |
| LockMutex.TryLock | staging/mutex.h:67-85 | in every run mutex_trylock fails exactly against a holder, leaves everything as it was then, and never waits |
| LockMutex.Undisturbed | staging/mutex.h:67-105 | either call takes a free mutex with its first step |
| LockMutex.FallsAsleep | staging/mutex.h:99-131 | undisturbed on a held mutex, mutex_lock is announced and asleep after four steps |
| LockMutex.LockEndsHeld | staging/mutex.h:99-132 | whatever the others do, mutex_lock ends only by taking the free mutex, and nobody can do more to a thread than wake it |
| LockMutex.UnlockQuiet | staging/mutex.h:164-174 | undisturbed, mutex_unlock frees the mutex in two steps if nobody is announced |
| LockMutex.UnlockWakes | staging/mutex.h:164-180 | undisturbed, mutex_unlock frees the mutex and wakes exactly one sleeper |
| LockMutex.NoLostWakeup | staging/mutex.h:110-131 | a thread sleeps on a free mutex only while another one is awake in mutex_lock or is an unlocker still about to wake somebody |
| LockMutex.TakesAlone | staging/mutex.h:99-132 | undisturbed, a thread in mutex_lock takes a free mutex within three steps |
| LockMutex.SleepEnds | staging/mutex.h:164-180 | helpers that are there already bring a free mutex with a sleeper back into use within six steps |
| LockSemaphore.Conservation | staging/semaphore.h:45-118 | counted over the steps of any run: count plus successful waits is initial count plus posts, exactly as long as no post finds the count at its maximum; there are never more successes than units |
| LockSemaphore.Overflow | staging/semaphore.h:99-99 | a run in which a post on a full count loses all units |
| LockSemaphore.EndsRightly | staging/semaphore.h:45-97 | whatever the others do, a wait ends only with a unit taken, and a trywait also by refusal when there is none |
| LockSemaphore.StaysBlocking | staging/semaphore.h:58-97 | a semaphore_wait never turns into a semaphore_trywait or the other way round |
| LockSemaphore.OthersOnlyWake | staging/semaphore.h:45-118 | nobody can do more to a thread than wake it |
| LockSemaphore.TakesAlone | staging/semaphore.h:45-56 | undisturbed, a unit is taken in two steps if there is one |
| LockSemaphore.FallsAsleep | staging/semaphore.h:58-97 | undisturbed without a unit, semaphore_wait can only announce itself and fall asleep |
| LockSemaphore.CanCall | staging/semaphore.h:45-118 | a thread that is done can make each of the three calls |
| LockSemaphore.PostsAlone | staging/semaphore.h:99-112 | undisturbed, a post adds one unit, and goes on to wake only if there was none before and somebody is announced |
| LockSemaphore.PostWakes | staging/semaphore.h:112-117 | then it wakes everybody |
| LockSemaphore.NoLostWakeup | staging/semaphore.h:58-118 | a thread sleeps while the count is positive only while some poster's wake-all is pending |
| LockSemaphore.SleepEnds | staging/semaphore.h:109-117 | that poster needs at most two more steps, and then nobody sleeps |
| LockQueue.MutualExclusion | staging/spinlock.h:74-108 | at most one thread is in the critical section |
| LockQueue.FirstComeFirstServed | staging/spinlock.h:74-84 | counted over the steps of any run: the threads enter in the order of their exchanges, and those that have not entered are exactly the waiting ones |
| LockQueue.NobodyIsLeft | staging/spinlock.h:77-108 | every waiter has a predecessor that knows it or is about to be told, and somebody can act |
| LockQueue.EffectiveStep | staging/spinlock.h:74-108 | every such step brings its thread nearer to its end and puts nobody back |
| LockQueue.TakesAlone | staging/spinlock.h:74-108 | undisturbed, a free lock is taken with the first step and given back with two more |
| LockQueue.WaitsAlone | staging/spinlock.h:74-84 | undisturbed on a lock in use, a thread is in the waiting loop after three steps, linked to its predecessor |
| LockQueue.HandsOver | staging/spinlock.h:92-108 | a linked successor gets the lock with its next load once the owner has made three steps |
| LockTicket.MutualExclusion | staging/spinlock.h:21-39 | at most one holder in spite of the wrap-around, unless 2^32 tickets overtake a try_lock |
| LockTicket.InOrder | staging/spinlock.h:21-27 | tickets are served in the order in which they were drawn |
| LockTicket.TakesAlone | staging/spinlock.h:21-39 | undisturbed, ticketlock_lock has a free lock after two steps and ticketlock_try_lock after three |
| LockTicket.LockEndsServed | staging/spinlock.h:21-27 | whatever the others do, ticketlock_lock ends exactly when its ticket is served |
| LockTicket.TryFailsRightly | staging/spinlock.h:34-39 | whatever the others do, ticketlock_try_lock fails only if a ticket has been drawn that was not served when it began |
| LockTicket.TryFailsAlone | staging/spinlock.h:34-39 | undisturbed on a lock in use, ticketlock_try_lock fails and leaves everything as it was |
| LockTicket.UnlockServes | staging/spinlock.h:29-32 | undisturbed, ticketlock_unlock serves the next ticket, and its thread has the lock with its next load |
| LockTicket.TrySucceeds | staging/spinlock.h:34-39 | exactly when a successful compare-and-swap of try_lock keeps the order of tickets intact |
| LockTicket.ServedOne | staging/spinlock.h:21-32 | while tickets are out, some thread has the one that is served |
| LockTicket.TryIntrudes | staging/spinlock.h:34-39 | a successful compare-and-swap lets in a second thread exactly if tickets are out: another thread has the lock or takes it with its next load |
| LockTicket.Overtaken | staging/spinlock.h:34-39 | a run in which it is not, with two holders in the end |
| HeapBlocks.ExactlyTiled | staging/malloc.c:118-154 | each byte of a mapping is in exactly one block, and no block reaches outside |
| HeapBlocks.OneLast | staging/malloc.c:123-137 | each mapping has exactly one block marked as the last one, and one first block |
| HeapBlocks.Joined | staging/malloc.c:186-208 | joining neighbours keeps the tiling with agreeing tags |
| HeapBlocks.SplitUp | staging/malloc.c:215-236 | so does splitting a block |
| HeapBlocks.Mapped | staging/malloc.c:328-342 | and adding a new mapping |
| HeapBlocks.Unmapped | staging/malloc.c:254-273 | and giving a whole mapping back |
| HeapLists.BucketIs | staging/malloc.c:156-162 | the class of a size is at least i exactly if 2^i divides its number of 16-byte units |
| HeapLists.ClassesAreNotOrdered | staging/malloc.c:156-162 | a free block of 48 bytes is in a lower list than a request of 32 bytes searches |
| Heaps.TurnedDown | staging/malloc.c:275-347 | after one allocation a heap has a free block of 48 bytes and turns down a request of 32 bytes |
| HeapMemory.FixIsEnough | staging/malloc.c:55-58 | the rounded size is large enough exactly if it does not wrap around |
| HeapMemory.MapIsEnough | staging/malloc.c:328-329 | a mapping is large enough exactly if its size does not wrap around, and then no page larger than it has to be |
| HeapMemory.CallocCheck | staging/malloc.c:364-368 | the overflow check of calloc is exact |
| Heaps.Heap.constructor | staging/malloc.c:451-456 | an empty heap is valid |
| Heaps.Heap.TryMerge | staging/malloc.c:179-212 | no free neighbour is left, tags and lists agree, other live blocks are as before |
| Heaps.Heap.MaybeSplitBlock | staging/malloc.c:215-236 | what is not needed is cut off as a free block, if it is enough for one |
| Heaps.Heap.AllocMemblock | staging/malloc.c:238-243 | a free block becomes used and leaves its list |
| Heaps.Heap.FindFreeBlock | staging/malloc.c:275-287 | finds the first fitting block of the first searched list that has one, and nothing exactly if there is none in the lists searched |
| Heaps.Heap.NewMapping | staging/malloc.c:328-342 | a fresh region of zeros becomes one used block |
| Heaps.Heap.AllocateBlock | staging/malloc.c:316-350 | a live block more, of the rounded size and less than 32 bytes more: the first fit, or a new mapping exactly if there is none; all others and their bytes as before |
| Heaps.Heap.Malloc | staging/malloc.c:352-360 | the same for callers of malloc; exactly when it has no memory, and exactly when the block is large enough |
| Heaps.Heap.Calloc | staging/malloc.c:362-382 | every byte of the block is zero, also when a block known to be zero is not cleared; gives up exactly if the product overflows; the block comes from where malloc takes it |
| Heaps.Heap.FreeMemblock | staging/malloc.c:254-273 | a block that is a whole mapping goes back to the system if that works, and every other one to the lists |
| Heaps.Heap.Release | staging/malloc.c:384-397 | free: exactly this block is live no longer, all others and their bytes are as before; its mapping is given back exactly if no other live block is in it and unmapping works; a pointer to a free block is noticed |
| Heaps.Heap.UserWrite | staging/malloc.c:316-397 | writing to a live block breaks nothing the allocator relies on |
| Heaps.LiveApart | staging/malloc.c:316-397 | live blocks are aligned, inside a mapping, and never overlap |
| HeapOrder.HeapFirst | include/heap.h:29-62 | the first element of a heap is a smallest one |
| BinaryHeap.SiftUp | include/heap.h:29-39 | repairs an element that is too small, by exchanges only |
| BinaryHeap.SiftDownBottomUp | include/heap.h:41-62 | repairs an element that may be too large, by exchanges only |
| BinaryHeap.SiftDown | include/heap.h:64-82 | so does the top-down version |
| BinaryHeapOps.Heapify | include/heap.h:84-89 | any array becomes a heap of the same elements |
| BinaryHeapOps.Insert | include/heap.h:91-94 | the element behind a heap is added to it |
| BinaryHeapOps.Delete | include/heap.h:96-105 | although it sifts over n slots, the first n - 1 are a heap of the old elements without the deleted one |
| BinaryHeapOps.DeleteFirst | include/heap.h:107-112 | the first element leaves the heap |
| BinaryHeapOps.ExtractFirst | include/heap.h:114-120 | and is returned |
| BinaryHeapOps.IsHeapUntil | include/heap.h:135-143 | the longest prefix that is a heap |
| BinaryHeapOps.IsHeap | include/heap.h:145-148 | whether an array is a heap |
| BinaryHeapOps.Sort | include/heap.h:150-155 | a heap becomes an ordered rearrangement of itself |
| IntroInsertion.Sort3 | staging/sort.h:62-68 | three elements are put into order |
| IntroInsertion.InsertionSort | staging/sort.h:70-84 | sorts a segment, by moving elements within it |
| IntroInsertion.UnguardedInsertionSort | staging/sort.h:86-100 | the same without a test for the left end: the element in front stops every search |
| IntroInsertion.SelectPivot | staging/sort.h:102-117 | the pivot is bounded by the elements at both ends |
| IntroInsertion.Partition | staging/sort.h:156-182 | with a pivot that moves along: everything up to j is at most the pivot, everything from i on at least; no scan leaves the segment |
| IntroCuts.StackDepth | staging/sort.h:185-206 | with the smaller side first, fewer than k segments wait on the stack for n < 2^k |
| Introsort.StackHasRoom | staging/sort.h:129-132 | the stack of 64 segments never overflows |
| Introsort.HeapSort | staging/sort.h:188-189 | the fallback sorts a segment |
| Introsort.SortSegments | staging/sort.h:127-207 | the explicit stack ends with the whole array sorted; which bad partitions are followed by heapsort |
| Introsort.FallbackOnce | staging/sort.h:186-201 | of fewer than limit + 2^64 bad partitions, exactly the one with number limit is followed by heapsort |
| Introsort.SortShort | staging/sort.h:212-224 | with a smallest element in front, the unguarded sort is safe |
| Introsort.Sort | staging/sort.h:119-225 | a sorted rearrangement for every n >= 1 and every threshold |
| LinearIndex.ModDouble | staging/linear_hashing.c:112-123 | h mod 2n is h mod n or h mod n + n |
| LinearIndex.IndexAfterSplit | staging/linear_hashing.c:112-123 | a split moves only items of the bucket that is split, and only to the new one |
| LinearChainOps.Find | staging/linear_hashing.c:287-306 | finds a key in a chain, or shows that it is not there |
| LinearChainOps.InsertInternal | staging/linear_hashing.c:132-168 | one item more, in the first bucket with room or a new one; the check for duplicates is exact |
| LinearChainRemove.RemoveItem | staging/linear_hashing.c:328-363 | the last item of the chain takes the place of the removed one; all buckets but the last are full |
| LinearSplit.SplitBucket | staging/linear_hashing.c:170-232 | both chains together hold exactly the items of the old one, each in the chain that its hash value names |
| LinearHashing.Split | staging/linear_hashing.c:234-253 | a split does not change the map |
| LinearHashing.Table.constructor | staging/linear_hashing.c:389-422 | a new table is empty |
| LinearHashing.Table.Grow | staging/linear_hashing.c:234-253 | one bucket more, same map |
| LinearHashing.Table.MaybeGrow | staging/linear_hashing.c:255-264 | exactly if the table is filled by more than seven tenths |
| LinearHashing.Table.Insert | staging/linear_hashing.c:266-285 | adds a key unless it is there, and says which; one bucket more exactly if the table would be filled by more than seven tenths |
| LinearHashing.Table.Get | staging/linear_hashing.c:287-306 | the data of a key, if it is there |
| LinearHashing.Table.Remove | staging/linear_hashing.c:328-363 | takes the key out and returns its data, if it is there |
| Digits.DigitsUnique | src/charconv.c:173-218 | b^(n-1) <= v < b^n determines the number of digits |
| Digits.FixedValue | src/charconv.c:227-245 | enough digits of a number stand for it |
| Digits.FixedSplit | src/charconv.c:230-235 | k digits at a time are the same digits |
| Digits.GroupedDigits | src/charconv.c:183-188 | for base 2^k the number of digits is ilog2 / k + 1 |
| Ilog10.Ilog10Of32Is | src/utils.c:131-172 | the table entry and the shift give the number of decimal digits of every 32-bit number |
| Ilog10.Ilog10Of64Is | src/utils.c:174-201 | so does the estimate with one correction for every 64-bit number |
| ToChars.CountSlowly | src/charconv.c:203-217 | counting by division, four and two digits at a time first, is exact |
| ToChars.CountDigits | src/charconv.c:176-222 | every branch gives the exact number of digits |
| ToChars.TableEntryIs | src/charconv.c:32-144 | a table entry is the digits of its index |
| ToChars.WriteByTable | src/charconv.c:230-237 | the digits written from the table and what is left make up the number |
| ToChars.WriteDigits | src/charconv.c:238-248 | all digits are written, with zeros in front if asked for |
| ToChars.TextSpelled | src/charconv.c:147-259 | the text character by character: the sign, and the digits as codes of figures and of letters of the case asked for |
| ToChars.SpelledMeans | src/charconv.c:153-205 | a plus or minus in front exactly when it should be, and no letters of the other case |
| ToChars.FullWidth | src/charconv.c:170-177 | the width with leading zeros is that of the widest number of the type |
| ToChars.ToChars | src/charconv.c:147-259 | returns the exact length, and writes exactly the text if there is room, nothing otherwise |
| FromChars.CutsOff | src/charconv.c:342-345 | the comparison with cutoff and cutlim is the comparison with the limit |
| FromChars.ParseDigits | src/charconv.c:326-356 | reads exactly the digits; overflow exactly if their value exceeds the limit |
| FromChars.FromChars | src/charconv.c:380-404 | overflow exactly if the signed value is outside of the type, success exactly if there are digits, no overflow and nothing behind; then that value is stored |
| FromChars.DividedRead | src/charconv.c:326-404 | for characters divided into sign, prefix (0x, 0b, 0o in both cases) and digits, by rules that do not mention the code: what is read, when it is an overflow, when it succeeds and what is stored |
| FromChars.Divides | src/charconv.c:358-404 | all characters divide in this way |
| FromChars.ReadsBack | src/charconv.c:326-404 | a number written with a sign, a prefix and any number of leading zeros in letters of either case is read back, all of it |
| FromChars.RoundTrip | src/charconv.c:147-404 | what was printed, with any width, sign, base and flags, is read back as the same number, all of it |
| RandomRange.Uniform | src/random.c:125-165 | each result below s is given by exactly floor(2^w / s) of the accepted outputs |
| RandomRange.Threshold | src/random.c:136-136 | the negation that wraps around gives 2^w mod s |
| RandomRange.NextInRange32 | src/random.c:125-144 | the first accepted output is scaled; the shortcut for l >= s changes nothing |
| RandomRange.NextInRange64 | src/random.c:146-165 | the same with the 128-bit product |
| Uint128s.AddIs | include/uint128.h:148-154 | addition modulo 2^128 |
| Uint128s.SubIs | include/uint128.h:156-162 | subtraction modulo 2^128 |
| Uint128s.NegateIs | include/uint128.h:164-167 | negation modulo 2^128 |
| Uint128s.Mul64Is | include/uint128.h:169-187 | the sum of four limb products is the exact 128-bit product |
| Uint128s.MulIs | include/uint128.h:189-196 | multiplication modulo 2^128 |
| Uint128s.CmpIs | include/uint128.h:253-262 | the comparison of the numbers |

## Left out

Everywhere:

- Items and entries are a key and an opaque value; comparators and hash functions are a total order and a function of that key. Matching keys have equal hashes.
- Allocation succeeds, except in the memory allocator itself, where the system may provide no region.
- Alignment, padding and profiling counters. A parent pointer with a balance or a colour in its low bits is two fields; that both parts of such a word can be set and read on their own is `BinaryPacked`.
- Benchmarks, tests, debug checks and the code behind disabled preprocessor branches.

B-tree:

- `_btree_debug_copy`.
- BTreeDestroy.Destroy: freeing is recorded in a list of the freed nodes, and looking at a node requires that it is not in that list; the memory itself stays. Nodes that a deletion frees are only unlinked.
- The recorded path is a sequence with at most 32 entries instead of an array of 32.
- BTrees.BTree.Insert: requires a height of at most 32, as many levels as the source has path entries for; BTrees.BTree.FewItems says that fewer than 2^33 - 1 items are enough for that. The same holds for the other operations that record a path.
- BTreeIterators.BTreeIterator.StartAt: going on with next or prev after a key has not been found in the mode that asks for exactly this key is not modelled; the source leaves the iterator at the place in the leaf where the key would go.
- Iterators are not used across changes of the tree.

Hash tables:

- The hopscotch variant; `clear`, `destroy` and iteration over the slots.
- The bitmap is one boolean for each slot instead of one bit; entries and hashes are two arrays side by side instead of one allocation that is resized.
- RobinHoodHashtable.Hashtable.Insert: requires an absent key, as the source does, and a capacity of at most 2^30 when the table has to grow.
- QuadraticHashtable.Hashtable.Insert: requires the same.
- RobinHoodHashtable.Hashtable.Resize: requires a capacity from 1 to 2^31; 0 and larger ones wrap around in the source.
- QuadraticHashtable.Hashtable.Resize: requires the same.
- HashCapacity.RoundUp: a word is a number below 2^32 and its bits are those of the number; a capacity above 2^31, which wraps around, is excluded.

Trees:

- The order of pointer writes that do not depend on each other is not that of the source in every place.
- Finding the place of a key, which the library leaves to its callers.
- The library's nodes are embedded in the caller's objects; here they are objects of their own.

Locks:

- Weak memory orders: every step is sequentially consistent. Spin counts and pauses.
- Owners and recursion of the mutex; `qspinlock_try_lock`, which never records the lock in its node; the table of nodes of each thread.
- LockMutex.MutualExclusion: assumes fewer than 2^32 threads, and that only the holder unlocks, which the source asserts in part.
- LockSemaphore.NoLostWakeup: assumes at most 2^31 - 1 threads, the most that one wake-up call wakes.
- Progress is shown as steps that are enough and that nobody can undo, not as termination under a fair scheduler.

Allocator:

- `heap_realloc`; guard pages; the variant on top of `malloc`.
- Free lists are sequences of addresses; their pointers are bytes that are overwritten with anything.
- Heaps.Heap.Malloc: all sizes below 2^64, but the system provides no mapping when the size of the mapping wraps around (HeapMemory.MapIsEnough says exactly when); with one, an assertion of the source fails or its pointers overflow.
- Heaps.Heap.Calloc: the same.
- Heaps.Heap.AllocateBlock: the same.
- Heaps.Heap.Release: only pointers to blocks; that other pointers crash or are noticed by their garbage header is not modelled.
- HeapLists.BucketIs: counts the trailing zeros of the full number; the source looks at its low 32 bits only, which is the same unless all of them are zero (multiples of 2^36 bytes), where the builtin is undefined.

Sort:

- Introsort.Sort: requires at least one element; with n = 0 the source computes `n - 1`.
- The switch for one insertion sort at the end, which is always off. Running time.

Linear hashing:

- LinearHashing.Table.Get: returns an option; the source returns NULL both for a missing key and for NULL data.
- LinearHashing.Table.Remove: the same.
- The slots of a bucket are a sequence of fixed length; iteration, clearing and the string hash function.

Numbers:

- The shifts and the bitwise operations of 128-bit numbers, and the variants that use a 128-bit type of the compiler.
- RandomRange.NextInRange32: the generator is any finite sequence of outputs, so that there may be no accepted one; a sequence that ends is reported.
- RandomRange.NextInRange64: the same.
- The conformance of the generator to a published one; ranges of limit 0.
- ToChars.ToChars: base and flags are parameters instead of bits of one word. The digit tables are given by the digits that they hold.
- FromChars.FromChars: requires bytes below 255, for which the lookup table of the source has no entry, and a base of 2 to 36 or detection of the base.
- Fallback functions that count bits with a loop.
