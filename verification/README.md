# An object store on a copy-on-write tree

This project models, in Dafny, the storage engine of an on-disk object store and proves what it is
for.  An object's attributes are kept in an index tree whose blocks are written to new places when
they change; the container's allocator, the block cache, the ring of super blocks and the AVL tree
used for lookups in memory are modelled with it.  The proofs are layered: bytes of a block, sequences
of entries, a store of blocks, a tree opened along the cursor's path, and sorted contents.

| files | what they hold |
|---|---|
| `IndexLayout`, `IndexBlockBytes`, `IndexBlockEdit`, `IndexBlock` | a block as bytes: entries with their lengths and back links, and the in-place edits of them |
| `IndexTreeShape`, `IndexTreeZipper`, `IndexTreeDirty`, `IndexTreeEdit`, `IndexTreeSplit`, `IndexTreeLanding`, `IndexTreeInsert`, `IndexTreeRemove`, `IndexTreeRest`, `IndexTreeWalk`, `IndexTreeSearch`, `IndexTreeSwap`, `IndexTreeOverfull`, `IndexTreeCommit`, `IndexTreeCount` | well-formed trees, trees opened along a path, and the lemma or two each step of an operation rests on |
| `IndexTree`, `IndexTreeRuns` | the class: cursor stacks, cached blocks, dirty set and disk, and the operations on them; runs that lose keys |
| `AvlShape`, `AvlRotate`, `AvlEdit`, `AvlRemove`, `AvlDelete`, `AvlWalk`, `AvlTree` | AVL trees of nodes in memory with parent links, child indices and balances |
| `Extents`, `ExtentIndex`, `ExtentTree`, `SpaceManager`, `Allocator` | free extents, the index tree behind them, one level of allocation, and the two levels with the block set aside |
| `MetadataCache` | cache entries in two indices, and flushing |
| `SuperBlockRing` | slots, torn writes and recovery |
| `StoreCommit` | commits and stops across the index tree and the ring |
| `Collate` | encodings of numbers and extents, and the orders on keys |

How to read the tree model.  The class holds the program's own state; a ghost tree, opened along the
cursor's path, says what that state means.  Leaves are blocks whose children are `Nil`, so leaves and
inner blocks are handled alike.  `store` maps a block number to its contents as a reader sees them (the
cache if it has the block, else the disk); `AllocBlock` gives any number not in use.  `Contents()` is
the sequence of keys and values in order.  Structural results never need the keys to be sorted; search,
insertion and removal by key add that.

Where the code does not do what one would expect, the model follows the code:

* Removing a key from an inner block walks on from wherever the insertion of its successor left the
  cursor.  If that insertion had to split a block, another key is removed.  `RemoveKey` states exactly
  when, `SwapWrong` what is lost, `WideRootLosesKey` gives a tree, `LoseKeyRun` a run on it, and `EqualLengthsNeverOverfull` the
  case in which it cannot happen.
* `set_ib_dirty` gives the old block back at once, so a block of the last committed tree can be handed
  out again before the next commit.  The file `README.md` of the repository says that the data on disk is
  consistent at any time; `CommitMayStop` says exactly when that holds, and `ReuseRun` is a run that loses a
  committed key.
* Freeing a range that is free already returns success and still counts it (`SmFreeSpace`, `FreeTwiceRun`).  Freeing a range
  between two free ones can leave two extents that touch, because removing the right neighbour may leave the
  cursor before the left one: `FreeSpace` says exactly when, in terms of the tree, `RestPlain` says it in plain
  words where no block is split, and `MissRun` is an example.
* Lengths of extents are cut to 32 bits: `AllocSpace` and `FreeSpace` say exactly when that does harm, `LongRun` and
  `LongFreeRun` are examples.
* A request may not start at the block the space manager asks for, although that is free, because the search may meet
  another extent of the range first: `SmAllocSpace` says exactly when it does, `AloneIsHinted` gives a case in which it
  always does, `HintRun` is an example.
* Freeing needs blocks for the lower level first, so that it can be refused: `OfsFreeSpace` says exactly when,
  `StuckRun` is an example.
* An object that is released dirty and opened again before the next flush shares an entry that the flush
  frees (`FlushAll`, `ReopenBeforeFlush`).
* Two torn writes of the same slot can together look complete: `Recovered` says exactly when recovery then returns
  something that was never written, `TwoTears` is an example.

## Model

| member | source | states |
|---|---|---|
| `IndexTree.IndexTree.InsertKey` | object_system/ofs_btree.c:1246-1303 | a key that compares equal to none is inserted, and the call is refused exactly when one does (under the string rule: when there is the same text, whatever the case of its letters); the tree stays well formed through any chain of splits and a root reparent, and the contents are the old ones with the new entry at its place in the order |
| `IndexTree.IndexTree.RemoveKey` | object_system/ofs_btree.c:1199-1226 | a key is removed exactly when present (under the string rule: when there is the same text, whatever the case of its letters); the contents lose exactly that entry if and only if its block would not be overfull with the successor in its place |
| `IndexTree.IndexTree.SearchKey` | object_system/ofs_btree.c:558-578 | finds an entry that compares equal exactly when there is one, and of several the one nearest to the root, and in its block the first; otherwise it lands on the least greater entry or on END of the root; under the extent rule that is overlap, under the string rule the same text |
| `IndexTreeSwap.MetTopmost` | object_system/ofs_btree.c:474-533 | of all entries that compare equal a search meets one that no other is nearer to the root than, and in its block the first; all others are in blocks below, or behind it |
| `IndexTree.IndexTree.TreeInsertIe` | object_system/ofs_btree.c:933-974 | inserting with splits and reparenting puts the pending entry at its place and nothing else; a block is split exactly when 4096 bytes do not hold the entry, and otherwise the height stays exactly when the block has room; the height grows by at most one; the cursor is left on the entry exactly when no block was split, and otherwise beyond its neighbours, on the middle entry of the topmost block that was split (BackRank, if that is before the place of insertion) |
| `IndexTreeInsert.BackStep` | object_system/ofs_btree.c:802-869 | where the cursor will end is foretold by the path alone: from a block to its parent as long as that has to be split too, and then it is the rank of the middle entry |
| `IndexTree.IndexTree.SplitIb` | object_system/ofs_btree.c:802-869 | the block divides at the one entry that has less than half of the bytes before it and at least half up to its end, both parts are well shaped, and the insertion continues one level up with that entry and the same overall contents |
| `IndexTree.IndexTree.ReparentRoot` | object_system/ofs_btree.c:872-931 | the root gives its entries to a new block and keeps one END entry naming it; contents and cursor position are unchanged, the height is one more |
| `IndexTree.IndexTree.GetMiddleIe` | object_system/ofs_btree.c:597-620 | the loop stops at the entry that has less than half of the block's bytes before it, and at least half of them up to its end |
| `IndexTreeSplit.MiddleOnly` | object_system/ofs_btree.c:597-620 | there is one such entry only (or END), half of an odd number of bytes being rounded down |
| `IndexTreeSplit.SplitRoom` | object_system/ofs_btree.c:597-620 | in an overfull block with entries within the size limits the middle entry is neither first, nor last, nor END, and each half has room for the pending entry without another check |
| `IndexTreeInsert.SplitView` | object_system/ofs_btree.c:802-869 | a split changes nothing in the order of the contents, and the entry that was pending ends up strictly on one side of the new pending entry together with the subtrees beside it |
| `IndexTree.IndexTree.SetDirty` | object_system/ofs_btree.c:46-108 | afterwards every block of the path is dirty and linked by its new number, just the clean ones have other numbers than before, contents and other stored blocks are as before; the numbers given back are exactly those of all clean blocks of the path, and one of the committed tree is in use again exactly when the allocator gave it out |
| `IndexTreeDirty.MoveRound` | object_system/ofs_btree.c:46-108 | one round of the copy-on-write loop keeps the invariant that levels below are done and the level above still names the old block |
| `IndexTreeDirty.CleanFromAll` | object_system/ofs_btree.c:61-104 | because parents of dirty blocks are dirty, stopping at the first dirty block gives back exactly the clean blocks of the path |
| `IndexTree.IndexTree.RemoveLeaf` | object_system/ofs_btree.c:1030-1102 | exactly the entry under the cursor goes, through freeing of emptied chains of blocks, repair of the parent and re-insertion of the entry taken from it; the cursor ends where the tree before the call foretells |
| `IndexTreeRest.RestPlain` | object_system/ofs_btree.c:1030-1102 | if the leaf that takes the parent entry has room, removing an entry of a leaf leaves the cursor in place, except that it goes one entry back exactly when the entry was alone in a leaf that hangs, through blocks without entries, on END of its nearest ancestor with entries |
| `IndexTreeRest.RestOfCursor` | object_system/ofs_btree.c:1183-1197 | where a removal will leave the cursor is determined by the tree and the rank, wherever the cursor came from |
| `IndexTree.IndexTree.CheckRemovedIb` | object_system/ofs_btree.c:976-1028 | emptied blocks are freed, from the cursor upwards and exactly those below the first block with entries, or the root collapses to an empty leaf; the contents stay |
| `IndexTree.IndexTree.StoredIsOwned` | object_system/ofs_btree.c:976-1028 | in every state between operations the stored blocks are exactly those of the tree, each owned once: nothing an operation unlinks is left behind, and nothing in use is freed |
| `IndexTree.IndexTree.TakeSeparator` | object_system/ofs_btree.c:1058-1084 | the parent of a freed child gives up one entry (the one before END if the place was END) and is well formed; putting that entry back at the stated rank restores the contents |
| `IndexTree.IndexTree.RemoveNode` | object_system/ofs_btree.c:1104-1181 | the successor replaces the entry, and the entry removed afterwards is the successor exactly when no split was needed; otherwise it is another one, at a distance |
| `IndexTree.IndexTree.TreeRemoveIe` | object_system/ofs_btree.c:1183-1197 | END cannot be removed; any other entry is removed exactly, unless its block would be overfull with the successor in its place; the cursor ends at the rank that RestAt computes from the tree before the call, or, if that is -1, at the old rank or beyond |
| `IndexTreeSwap.SwapWrong` | object_system/ofs_btree.c:1161-1180 | in the overfull case the result is not the contents without the entry: another key is lost and the successor is there twice |
| `IndexTreeOverfull.EqualLengthsNeverOverfull` | object_system/ofs_btree.c:1104-1181 | among entries of equal length the overfull case never occurs |
| `IndexTreeOverfull.WideRootLosesKey` | object_system/ofs_btree.c:1161-1180 | a well-formed two-level tree, sorted, with a key for which the overfull case occurs |
| `IndexTreeRuns.LoseKeyRun` | object_system/ofs_btree.c:1161-1226 | that tree is read from disk and the key is removed: another key is lost |
| `IndexTreeSwap.HomeOfCursor` | object_system/ofs_btree.c:474-533 | the block an entry is in is determined by the tree and its rank, wherever the cursor came from |
| `IndexTree.IndexTree.SearchKeyInternal` | object_system/ofs_btree.c:474-533 | ends on an equal entry, or in a leaf with everything before smaller and everything after greater |
| `IndexTree.IndexTree.Descend` | object_system/ofs_btree.c:380-392 | going down by first entries keeps where the subtree starts, by last entries the rank |
| `IndexTree.IndexTree.SkipEnds` | object_system/ofs_btree.c:535-556 | going up from END keeps the rank and ends on the entry at that rank or on END of the root |
| `IndexTree.IndexTree.WalkNext` | object_system/ofs_btree.c:437-471 | the next entry in order, through inner blocks without keys, or END exactly after the last |
| `IndexTree.IndexTree.WalkPrev` | object_system/ofs_btree.c:437-471 | the previous entry in order, or none exactly before the first |
| `IndexTree.IndexTree.WalkFirst` | object_system/ofs_btree.c:437-449 | the first entry, or none exactly when there are no contents |
| `IndexTree.IndexTree.WalkLast` | object_system/ofs_btree.c:437-449 | the last entry, or none exactly when there are no contents |
| `IndexTree.IndexTree.WalkAll` | object_system/ofs_btree.c:1391-1427 | a forward walk shows exactly the contents in order, a reverse walk exactly the reverse; both end |
| `IndexTreeShape.FlatNonEmpty` | object_system/ofs_btree.c:976-1028 | every subtree of a well-formed tree holds at least one key |
| `IndexTree.IndexTree.Commit` | object_system/ofs_metadata_cache.c:353-360 | afterwards nothing is dirty, the super block names the cached tree and that tree is on disk, with unchanged contents; the writes are every dirty block once and then, if the root moved, the super block, and a stop between any two of them leaves the old tree readable exactly when the blocks written by then did it no harm |
| `IndexTree.IndexTree.StopInCommit` | object_system/ofs_metadata_cache.c:222-287 | stopping when any set of dirty blocks was written leaves the committed tree readable if and only if none of them overwrote one of its blocks with other contents; always so if none of its blocks was handed out again |
| `IndexTree.IndexTree.CommitMayStop` | object_system/ofs_metadata_cache.c:222-287 | every moment at which a commit may stop is harmless if and only if no dirty block overwrites a block of the committed tree with other contents |
| `IndexTree.IndexTree.CrashInCommit` | object_system/ofs_metadata_cache.c:222-287 | stopping and starting again gives the last committed tree, unless a block written overwrote one of its blocks with other contents |
| `IndexTreeRuns.ReuseRun` | object_system/ofs_btree.c:61-104 | a run in which set_ib_dirty gives the leaf its new place, the root takes the number given back, that block is written and the system stops: the committed key cannot be read any more |
| `IndexTree.IndexTree.Reopen` | object_system/ofs_metadata_cache.c:373-433 | an object opened anew has exactly the committed tree, cached cleanly, ready for every operation |
| `IndexTreeCommit.SafeToWrite` | object_system/ofs_metadata_cache.c:222-250 | every subset of the dirty blocks may be on disk without harm to the committed tree if and only if no dirty block overwrites one of its blocks with other contents |
| `IndexTreeCommit.LoadOnDisk` | object_system/ofs_metadata_cache.c:373-433 | reading from the root finds exactly the tree that was written |
| `StoreCommit.CommitStore` | object_system/ofs_metadata_cache.c:353-360 | after a commit the newest version in the ring names the root of the committed tree, which is the cached one; the ring has one more version exactly when the root was dirty, and is untouched otherwise |
| `StoreCommit.StopStore` | object_system/ofs_metadata_cache.c:222-360 | wherever a commit stops, in the block writes or in the super block write, recovery finds the root of the committed tree, or, exactly when both ends of the slot arrived, that of the new tree if the contents arrived too, and otherwise what the slot named before; the committed tree can be read if and only if no block written overwrote it, the new one always |
| `StoreCommit.Format` | object_system/ofs_container_manager.c:190-250 | a new store starts that way |
| `IndexBlock.IndexBlock.InsertIe` | object_system/ofs_btree.c:680-695 | the byte moves put the entry before entry i: the block decodes to the sequence with it inserted, the chain of lengths is linked and real_size is the sum |
| `IndexBlock.IndexBlock.RemoveIe` | object_system/ofs_btree.c:664-678 | the byte moves take entry i out of the decoded sequence |
| `IndexBlock.IndexBlock.CopyIbTail` | object_system/ofs_btree.c:755-774 | the new block decodes to the entries behind the middle entry |
| `IndexBlock.IndexBlock.CutIbTail` | object_system/ofs_btree.c:777-799 | the old block decodes to the entries before the middle entry and an END that names its child |
| `IndexBlock.IndexBlock.GetEntriesLength` | object_system/ofs_btree.c:623-647 | the sum of the lengths up to and with END |
| `IndexBlock.IndexBlock.GetMiddleIe` | object_system/ofs_btree.c:597-620 | the loop over bytes finds the offset that has less than half of the bytes before it, and whose entry ends at half of them or later |
| `IndexBlock.IndexBlock.NextIe` | include/ofs_tree.h:79 | adding len to the offset of an entry gives the offset of the next |
| `IndexBlock.IndexBlock.PrevIe` | include/ofs_tree.h:80 | subtracting prev_len gives the offset of the entry before, or of BEGIN |
| `IndexBlock.IndexBlock.InitIb` | object_system/ofs_btree.c:256-300 | the block decodes to a single END entry |
| `IndexBlock.IndexBlock.DumpIeAddVbn` | object_system/ofs_btree.c:698-724 | a copy of the entry with a child number |
| `IndexBlock.IndexBlock.DumpIeDelVbn` | object_system/ofs_btree.c:727-752 | a copy of the entry without its child number |
| `IndexBlock.ContainsUnique` | include/ofs_layout.h:132-157 | the bytes of a block are the encoding of one sequence of entries only |
| `IndexBlock.TreeBlockFormed` | object_system/ofs_btree.c:777-799 | every block of a well-formed tree has this representation, and splitting it is the byte moves above |
| `IndexBlockEdit.RemoveRun` | object_system/ofs_btree.c:664-678 | patching prev_len and moving the tail leaves the encoding of the sequence without entry i |
| `IndexBlockEdit.InsertRun` | object_system/ofs_btree.c:680-695 | patching prev_len, moving the tail and copying the entry leaves the encoding of the sequence with it |
| `AvlTree.AvlTree.Find` | public/avl.c:257-296 | finds the node with the key exactly when there is one, else the empty place where it belongs, within as many steps as the tree is high |
| `AvlTree.AvlTree.Rotation` | public/avl.c:313-475 | a rotation relinks the nodes in place, keeps their order, restores exact balances in the subtree, and reports whether it got lower |
| `AvlRotate.RotatedOk` | public/avl.c:313-475 | the rotated tree has the same nodes in the same order and is balanced; it is lower exactly when the child was not in balance |
| `AvlRotate.Rotate2Linked` | public/avl.c:405-475 | after the double rotation every child, parent, child index and balance field is that of the new tree |
| `AvlTree.AvlTree.Insert` | public/avl.c:493-568 | the node is linked at the given place, the order is the old one with it inserted, and all links, indices and balances are exact, after at most one rotation |
| `AvlEdit.GrownTilted` | public/avl.c:535-567 | when a rotation is due it brings the subtree back to its old height, so one is enough |
| `AvlTree.AvlTree.InsertHere` | public/avl.c:583-637 | the node goes directly before or after the given one in order |
| `AvlTree.AvlTree.Add` | public/avl.c:643-660 | a node with a new key is added, and the keys stay in order |
| `AvlTree.AvlTree.Remove` | public/avl.c:685-829 | exactly the given node goes, the others keep their order, and all links, indices and balances are those of the tree that the recursion Less computes, through the placeholder and any number of rotations |
| `AvlDelete.LessPlug` | public/avl.c:787-828 | removing a node is removing it from its subtree and putting the tree above together again, with a rotation wherever the other side is two levels higher |
| `AvlDelete.Replacement` | public/avl.c:703-727 | a node with two children is replaced by its neighbour in order on the higher side (the one before, if they are of equal height), and that stays in its place |
| `AvlRemove.PlacedOk` | public/avl.c:719-762 | with the neighbour in the place of the node and the placeholder in the place of the neighbour the tree is linked, also when the neighbour was a child of the node |
| `AvlRemove.PlacedOrder` | public/avl.c:719-762 | leaving out the placeholder leaves the old order without the removed node |
| `AvlRemove.ShrunkTilted` | public/avl.c:787-828 | a rotation on the way up leaves the subtree one level lower or as high as before, which its result tells |
| `AvlTree.AvlTree.Walk` | public/avl.c:138-179 | the neighbour in order on the given side, or none at the end |
| `AvlTree.AvlTree.Extreme` | public/avl.c:185-215 | the first or last node in order, or none in an empty tree |
| `AvlTree.AvlTree.Nearest` | public/avl.c:228-244 | the node just before or just after an empty place |
| `AvlTree.AvlTree.WalkAll` | public/avl.c:1055-1082 | every node is visited exactly once in order even when visited nodes are removed on the way, and exactly those are gone afterwards |
| `AvlTree.AvlTree.DestroyNodes` | public/avl.c:962-1053 | returns the next node in post-order, which is not looked at again, and after the last one nothing with an empty tree |
| `AvlTree.AvlTree.DestroyAll` | public/avl.c:940-961 | the documented loop returns every node exactly once, in post-order |
| `AvlWalk.PostParents` | public/avl.c:940-961 | in post-order every node comes before its ancestors |
| `AvlShape.MinimalSize` | public/avl.c:257-296 | a balanced tree of height h has at least fib(h + 2) - 1 nodes |
| `SpaceManager.SpaceManager.AllocSpace` | object_system/ofs_space_manager.c:43-159 | fails exactly when nothing is free; otherwise it takes as many blocks as there are, up to blk_cnt, from the extent that a search for the request meets, or else from the next one, starting at the block asked for if the extent has it and else at the extent's beginning; a request all of whose blocks are free gets just these, in a coalesced table, which stays coalesced; exactly the blocks taken leave the set of free blocks if and only if that extent is shorter than 2^32 blocks; the count is returned as a signed 32-bit number |
| `SpaceManager.LongRun` | object_system/ofs_space_manager.c:79-159 | a run on an extent of 2^32 + 5 blocks: after two blocks were allocated only three are free |
| `SpaceManager.SpaceManager.FreeSpace` | object_system/ofs_space_manager.c:161-252 | a range that overlaps is refused with result 0; of one that overlaps nothing exactly its blocks become free if and only if it is, together with what it is joined with, shorter than 2^32 blocks; and then it is one extent with the neighbours that touch it, all others stay, and the table stays fully coalesced if and only if the left neighbour, if it touches, is itself shorter than 2^32 blocks and is not passed by: both neighbours touch and, in the index tree before the call, removing the right one leaves the cursor before the left one |
| `SpaceManager.LongFreeRun` | object_system/ofs_space_manager.c:174-252 | a run: freeing one block before an extent of 2^32 - 1 blocks does not make exactly that block free |
| `SpaceManager.MissRun` | object_system/ofs_space_manager.c:161-252 | a run on a concrete well-formed index: freeing the block between two extents leaves two extents that touch |
| `SpaceManager.FreeTwiceRun` | object_system/ofs_space_manager.c:338-354 | a run: freeing a free block leaves the counter one too high |
| `ExtentIndex.ShallowNeverOverfull` | object_system/ofs_btree.c:1104-1181 | among extents, in an index of at most two levels, the overfull case never occurs |
| `ExtentIndex.MissIndexed` | object_system/ofs_btree.c:1030-1102 | that index: the right neighbour is alone in the last leaf, and removing it leaves the cursor on the left one |
| `SpaceManager.JoinedCoalesced` | object_system/ofs_space_manager.c:174-252 | when the left neighbour is missed, and only then, two extents that touch are left |
| `SpaceManager.Carved` | object_system/ofs_space_manager.c:83-159 | what is left after alloc_space is all but the blocks taken exactly when the extent was shorter than 2^32 blocks |
| `SpaceManager.SpaceManager.SmAllocSpace` | object_system/ofs_space_manager.c:292-336 | the counter stays equal to the number of free blocks, and one that is too high is zeroed when the table turns out empty; the next call starts where this one ended if, and only if, the search meets the extent that has that block |
| `SpaceManager.AloneIsHinted` | object_system/ofs_space_manager.c:43-136 | a free block is where the next request starts if no other extent has blocks of the request, and always when one block is asked for |
| `SpaceManager.HintRun` | object_system/ofs_space_manager.c:43-136 | a run: three blocks are asked for from a free block on, and two blocks further on are given, because the search meets another extent first |
| `SpaceManager.SpaceManager.SmFreeSpace` | object_system/ofs_space_manager.c:338-354 | the counter stays equal to the number of free blocks exactly when the range was not free, wholly or in part |
| `Allocator.Allocator.OfsAllocSpace` | object_system/ofs_space_manager.c:400-429 | every block of the container stays in exactly one place and is counted, the caller owns what it got, nobody owned it before, and it was free in the level the caller takes from; a user is refused only if sm held no more than the lower level had to be filled up with, the tree of sm only if the lower level is empty; fewer blocks than asked for are given only where the free ones end |
| `Allocator.Allocator.OfsFreeSpace` | object_system/ofs_space_manager.c:431-459 | every block of the container stays in exactly one place and is counted, the caller no longer owns what it gave back, which is free in its level; a user is refused exactly when sm has fewer blocks than the lower level needs |
| `Allocator.StuckRun` | object_system/ofs_space_manager.c:431-459 | a run: in a full container whose lower level is low a user cannot give back a block |
| `Allocator.Allocator.ReserveBaseSpace` | object_system/ofs_space_manager.c:356-392 | ends with a block set aside and more than the minimum, up to the maximum, in the base level, exactly when sm has the blocks for that; else with nothing free in sm; blocks only move from sm to the lower level |
| `Allocator.Allocator.MoveBaseTree` | object_system/ofs_space_manager.c:404-415 | while the base tree is one block, taking the block set aside and giving the old one back keeps a block set aside |
| `Allocator.Allocator.constructor` | object_system/ofs_container_manager.c:190-250 | in a new container every block is in exactly one place |
| `Allocator.RangeNotFree` | object_system/ofs_space_manager.c:338-354 | a range of blocks none of which is free overlaps no free extent and leaves room for itself |
| `Extents.ProperIsSorted` | object_system/ofs_collate.c:336-363 | a table of extents is non-empty, sorted and disjoint exactly when its encoding is sorted by the extent rule |
| `Extents.EqualIsOverlap` | object_system/ofs_collate.c:336-363 | an encoded extent compares equal to a queried one exactly when they overlap |
| `ExtentTree.SearchExtent` | object_system/ofs_btree.c:558-578 | a search of the index tree finds the extent that overlaps and is nearest to the root exactly when there is one, and otherwise the place of the range |
| `ExtentTree.RemoveExtent` | object_system/ofs_btree.c:1183-1197 | removing from the index tree takes exactly that extent out of the table if and only if its block would not be overfull with the successor in its place, and then leaves the cursor where the table model says; otherwise another extent is lost and the successor is there twice |
| `ExtentTree.PrevExtent` | object_system/ofs_btree.c:437-471 | walking back in the index tree gives the extent before |
| `ExtentTree.InsertExtent` | object_system/ofs_btree.c:1246-1303 | inserting into the index tree puts an extent that overlaps no other at its place in the table |
| `MetadataCache.AddedOk` | object_system/ofs_metadata_cache.c:60-70 | putting an entry into both indices under an unused number keeps them coherent; nobody else has it, all other entries stay, and a reader sees every other block as before |
| `MetadataCache.RemovedOk` | object_system/ofs_metadata_cache.c:72-82 | taking an entry out of both indices keeps them coherent; nobody has it any more, all other entries stay, and a reader sees everything as before unless the entry was dirty |
| `MetadataCache.ContainerCache.MoveObjCache` | object_system/ofs_metadata_cache.c:85-90 | re-keying keeps both indices coherent; the contents are seen under the new number, nobody has the old one, and all other entries of all objects stay |
| `MetadataCache.ContainerCache.ReleaseObjCache` | object_system/ofs_metadata_cache.c:172-188 | a clean entry leaves both indices, a dirty one only the object, and is marked; all other entries stay; what a reader sees is unchanged |
| `MetadataCache.ContainerCache.ReleaseObjAll` | object_system/ofs_metadata_cache.c:190-197 | afterwards the object has no entries; its clean ones are gone, its dirty ones are marked, all other entries and objects are as before, and what a reader sees is unchanged |
| `MetadataCache.ReleaseAndFlush` | object_system/ofs_metadata_cache.c:190-264 | after the next flush none of the object's entries is left, what was dirty is on disk, and the other objects have what they had |
| `MetadataCache.ContainerCache.ReadBlock` | object_system/ofs_metadata_cache.c:373-433 | gives the entry both indices then hold, with the contents a reader sees; entries waiting to be written stay apart from objects exactly when none of them is picked up again |
| `MetadataCache.ContainerCache.FlushDirtyCache` | object_system/ofs_metadata_cache.c:222-255 | a dirty entry is written, clean, and gone if its object was released; all others, and the disk elsewhere, are as before |
| `MetadataCache.ContainerCache.FlushAll` | object_system/ofs_metadata_cache.c:257-264 | afterwards nothing is dirty, just the dirty blocks were written, entries are gone exactly if they were marked, the disk alone shows what a reader saw before, and the indices are coherent exactly when no object had picked up an entry waiting to be written |
| `MetadataCache.ReopenBeforeFlush` | object_system/ofs_metadata_cache.c:172-255 | a run in which an object released dirty and opened again before the flush is left with an entry that was freed |
| `MetadataCache.FlushedSound` | object_system/ofs_metadata_cache.c:222-255 | writing one entry changes nothing for a reader, and nothing but that block and its entry |
| `MetadataCache.CoherentIsSound` | object_system/ofs_metadata_cache.c:60-83 | coherence is soundness of the container index plus: no object has an entry the container no longer has |
| `SuperBlockRing.Ring.Update` | object_system/ofs_block_rw.c:237-274 | one more complete version, in the slot its sequence number names, and the block is ready for the next |
| `SuperBlockRing.Ring.TornUpdate` | object_system/ofs_block_rw.c:237-274 | whatever parts of a write arrive, recovery works as before; it counts one more version exactly when both ends of the slot are now of the new one, and that version is what the slot now holds |
| `SuperBlockRing.Recovered` | object_system/ofs_block_rw.c:345-393 | after a torn write recovery returns the version of before exactly when not both ends are new, the new version exactly when both are and contents and saved bytes are its own, and otherwise something made of two writes |
| `SuperBlockRing.FirstTear` | object_system/ofs_block_rw.c:237-274 | one torn write over a slot that holds the version eight before, or nothing, changes nothing for recovery |
| `SuperBlockRing.TearsComplete` | object_system/ofs_block_rw.c:237-274 | two torn writes of one version that together bring everything add just that version |
| `SuperBlockRing.TwoTears` | object_system/ofs_block_rw.c:237-393 | a run with two torn writes after which recovery returns what was never written |
| `SuperBlockRing.Ring.GetLastCorrectBlock` | object_system/ofs_block_rw.c:276-343 | whatever the slots hold, it returns the first good one back from the end of the run of consecutive sequence numbers, or none if an unwritten slot comes first; in a ring that is the newest complete version, also when the slot after it is torn and looks newer |
| `SuperBlockRing.Ring.Recover` | object_system/ofs_block_rw.c:345-393 | gives the newest completely written version, with the sequence number of the next update |
| `SuperBlockRing.Ring.UpdateInit` | object_system/ofs_block_rw.c:187-235 | the first version, alone in the ring |
| `SuperBlockRing.SlotFromSeq` | object_system/ofs_block_rw.c:255-257 | the slot computed from the 16-bit sequence number is that of the version number, because eight divides 2^16 |
| `SuperBlockRing.LastingNext` | object_system/ofs_block_rw.c:237-274 | completing an update keeps the last seven versions in their slots and exposes no other as newest, also when the sequence number wraps |
| `SuperBlockRing.FixupDetects` | object_system/ofs_block_rw.c:42-79 | assembling and fixing up is a round trip, and a write of which one end arrived is noticed |
| `Collate.EncodeRoundTrip` | object_system/ofs_collate.c:212-282 | decoding undoes encoding, and no encoding is shorter |
| `Collate.DecodeRoundTrip` | object_system/ofs_collate.c:212-282 | encoding undoes decoding for strings without padding |
| `Collate.U64Size` | object_system/ofs_collate.c:231-255 | the loop computes the shortest size, at least one |
| `Collate.U64ToBstr` | object_system/ofs_collate.c:257-282 | writes the shortest encoding and nothing else |
| `Collate.BstrToU64` | object_system/ofs_collate.c:212-229 | the value of the little-endian string |
| `Collate.PairRoundTrip` | object_system/ofs_collate.c:302-328 | an extent of non-zero length comes back from its pair, which has at most 17 bytes |
| `Collate.CollateBinary` | object_system/ofs_collate.c:69-116 | compares as big-endian numbers whatever the lengths and leading zeros |
| `Collate.CollateAnsi` | object_system/ofs_collate.c:170-205 | equal exactly for the same bytes up to the case of letters; less exactly if at the first other difference the byte is less, as a signed capital, or the string ends there |
| `Collate.CollateU64` | object_system/ofs_collate.c:284-300 | compares as little-endian numbers |
| `Collate.PaddedKey` | object_system/ofs_object_manager.c:473-493 | a zero-padded search key compares like the shortest form and finds it |
| `Collate.ExtentOverlap` | object_system/ofs_collate.c:336-363 | compares equal exactly when the extents share an address |
| `Collate.WrappedQuery` | object_system/ofs_collate.c:336-363 | a queried range that runs over the last address is met only by entries that reach from before its wrapped end to beyond its beginning |
| `Collate.SortedRun` | object_system/ofs_collate.c:412-450 | against any search key sorted entries are smaller ones, then equal ones, then greater ones |

## Left out

- Threads and locks: operations run one at a time.
- I/O and memory failures, and the error paths that abandon an operation half way: there is enough memory, disk calls succeed, and blocks can be allocated for the tree.
- IndexTree.IndexTree.InsertKey: requires a tree of less than 16 levels and sizes of at most 256 and 1024 bytes, which the program states as constants but does not check.
- IndexTree.IndexTree.RemoveKey: requires a tree of less than 15 levels, because each of its two insertions may add one.
- IndexTree.IndexTree.AllocBlock: any number not in use, instead of a call of the allocator modelled in `Allocator`; the capacity of the container is not part of the tree model.
- IndexTree.IndexTree.WalkPrev: when there is no entry before, the program leaves the cursor on BEGIN of the root; the model says so by its result only.
- IndexTree.IndexTree.Commit: one object, whose root number is in the super block; that a user object's root number is an entry of the object table is not modelled, nor the order in which dirty blocks are written, which is any.
- IndexTree.IndexTree.UpdateSuperBlock: takes effect at once; stops inside the super block write are the subject of `StoreCommit` and `SuperBlockRing`.
- SpaceManager.ExtentTable.Remove: a table is a sequence of extents with some well-formed tree that holds them; `ExtentTree` does each of its operations on an index tree object, but the tree a table has after an operation is any that holds its extents.  Trees in which a removal would go wrong (`Overfull`), which extents of unequal length allow in trees of three levels and more, are left out.
- SpaceManager.SpaceManager.SmAllocSpace: asks for fewer than 2^31 blocks, because their number comes back as a signed 32-bit number, and all free blocks together are fewer than 2^32, as in `SmFreeSpace`; `AllocSpace` and `FreeSpace` have neither limit.
- Allocator.Allocator.OfsAllocSpace: the blocks that the tree of a space manager takes or gives back while its own table is edited are separate steps, before or after; asks for fewer than 2^31 blocks.
- MetadataCache.ContainerCache.ReadBlock: requires that no other object has the block.
- SuperBlockRing.Ring.TornUpdate: header, contents and last bytes each arrive or not; partly written headers and contents are not modelled.
- Keys compared as wide-character strings: the program passes a count of bytes where a count of characters is expected.
- The extent map and its comparison, which the program compiles out.
- Reading one byte past an all-zero key before its size is checked (`os_collate_binary`): the result does not depend on it.
- `avl_update`, `avl_update_lt`, `avl_update_gt`: removals and additions by the modelled operations.
- The call-backs of `avl_walk_all` and `index_walk_all` that stop a walk early.
- The packing of parent, child index and balance of an AVL node into one word.
- Handles, reference counts, names, the command line, the server, dump and performance tools.
