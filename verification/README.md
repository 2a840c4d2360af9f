# Trusty storage: a verified model

The storage service in `app/storage` keeps files on an encrypted block device. Every change is
made inside a transaction: blocks are copied before they are written, a commit switches to the new
tree roots with one super block write, and a crash at any point must leave a file system that is
either the one before the commit or the one after it. This project models that machinery in Dafny
and proves that it works.

The layers, from the bottom up:

- **B+ tree** (`block_tree.c`). `TreeModel` and `TreeSteps` describe trees as values: what a good
  tree is (sorted entries, equal depth, every node at least half full, every separator equal to the
  first key to its right) and what a split, a borrow, a merge and a root collapse do to it.
  `TreeStore` lays a tree out in numbered blocks. `TreePath`, `TreeSearch` and `TreeWalk` model the
  path with its cached keys, the walk and the step to the next entry. `BlockTrees.BlockTree` is the
  in-place tree; an operation on it is specified by what it does to the sorted list of entries and
  by which blocks it may write. The modules in between (`TreeLinks`, `TreeSplit`, `TreeInsert`,
  `TreeMerge`, `TreeRemove`, `TreeRebalance`, `TreeKeys`, `TreeShort`, `TreeBorrow`, `TreeDelete`,
  `TreeUpdate`) hold the steps of the proofs. `NodeBuffers` is the layer below: nodes as arrays
  whose entries are shifted, proved to do what the record operations of the tree say. `TreeDepth`
  bounds the depth, `TreeOrder` covers the order checks of a split.
- **Range set** (`block_set.c`, `block_range.h`). `RangeModel` has the list of ranges, `BlockSets`
  the set on top of a tree.
- **Allocator and free set merge** (`block_allocator.c`, `transaction.c`). `AllocQueue` is the ring
  of queued requests, `AllocModel` says what requests mean, `Allocators.Allocator` is the
  re-entrant allocator with the merge of the free sets, `FreeSearch` the search for a free block.
- **Block cache** (`block_cache.c`). `BlockCaches.Cache` in front of a map from blocks to data;
  `CacheLinks` ties it to the cache of the engine below.
- **Super blocks, transactions and crashes** (`super.c`, `transaction.c`). `SuperBlocks` has the
  bytes of a super block, the choice between the two slots and the mount; `Engine` is a step relation
  over activating, allocating, freeing, writing to the cache, writing back, failing, the phases of a
  commit, and losing power; `EngineReads` follows what a transaction writes and requests along a run,
  and `EngineRuns` has the run in which a transaction gets through.
- **Directory and files** (`file.c`, `block_map.c`, `client_tipc.c`). `DirModel` and `Directories`
  cover lookup by path, the changes a transaction stages and their commit; `BlockMaps`, `FileModel`
  and `Files` cover the bytes of a file.

A tree operation's contract speaks of `Contents(tree)`, the entries in order, and of
`Kept(store, owned, store', owned')`: exactly the blocks that the transaction did not own are again not
owned, with the same contents, and a block it comes to own was not in use before. Part of a valid tree is
that every owned block is one of its nodes, so a block that is copied, merged away or collapsed is never
leaked. A cache operation's contract speaks of `Sees(k)`, what
a reader of block `k` gets.

## Findings

- `block_tree_update_block_mac` accepts a key change that breaks the order when the entry before it has
  the old key too: `TreeUpdate.AcceptsTooMuch` is a concrete case, `TreeUpdate.AcceptsOrder` says exactly
  when the acceptance test is right, and `BlockTrees.BlockTree.Update` covers all those cases.
- The strict comparison that `block_tree_node_split` asserts before it adds a key to the parent holds
  for distinct keys and fails exactly when so many keys of the overfull node equal the neighbour that
  they fill its right half: `TreeOrder.SplitKeyOrder`, with an insert that gets there in
  `TreeOrder.SplitKeyEqual`.
- A set read in the middle of an update is consistent, which the source leaves open: while two ranges
  are merged it already answers as the new set, while a range is split it still answers as the old
  one (`BlockSets.BlockSet.ExtendOver`, `BlockSets.BlockSet.Cut`), and where a tree split allocates it
  answers as the list with the pending range (`BlockTrees.BlockTree.Allocate`); `FindNextBlock`
  requires no more than that.
- `block_set_block_in_set` answers true for block 0 of an empty set (`BlockSets.BlockSet.Contains`).
- The queue sums up requests correctly for every sequence of nested requests, also if a block is
  freed while its own allocation is being applied. Handing such a block out again before that
  allocation has reached its set cancels the queued free and leaves nothing that keeps the search from
  returning the held block once more. This is the only way to get there: `AllocModel.ExposedExactly`,
  with a concrete state in `AllocModel.HandedOutTwice`. Whether a set update can make these two
  requests is not settled here; the allocator's contracts cover both and name the case when the search
  returns a held block.

## Model

| member | source | states |
|---|---|---|
| `TreeWalk.FindBlock` | app/storage/block_tree.c:1174-1234 | the search in one node stops at the first key that is not smaller, or at the last entry with at most the key |
| `TreeWalk.Walk` | app/storage/block_tree.c:1254-1350 | the path has full depth, its cached keys are right, and it stands at the least key not smaller than the wanted one, or at the greatest not larger, for the stored entries together with one that is being inserted |
| `TreeWalk.Next` | app/storage/block_tree.c:1356-1532 | the path moves on by exactly one entry, or from an empty slot onto the entry behind it, across any number of levels |
| `TreePath.PathReads` | app/storage/block_tree.c:439-608 | key and data shown by a path are those of the entry at its position in the whole tree |
| `TreeDelete.Scan` | app/storage/block_tree.c:1254-1532 | a walk for the first entry followed by repeated steps yields every entry once and in order, also while an entry is only pending |
| `TreeDelete.Find` | app/storage/block_tree.c:2634-2690 | the search of remove and update ends on an entry with exactly the wanted key and data, also among equal keys |
| `TreeInsert.PendingHolds` | app/storage/block_tree.c:1875-1909 | with a full node and a pending entry the tree still reads as a sorted tree that contains that entry |
| `TreeSteps.SplitNodeOk` | app/storage/block_tree.c:1974-2015 | both halves of an overfull node are good, keep its entries in order, and the key between them is the first of the right half |
| `TreeOrder.SplitKeyOrder` | app/storage/block_tree.c:2029-2032 | the key that moves to the parent lies between its neighbours; it is strictly below the right one, as asserted, if and only if fewer keys of the overfull node equal that neighbour than its right half has; with distinct keys always |
| `TreeOrder.SplitKeyEqual` | app/storage/block_tree.c:2029-2031 | a good tree and an insert into it after which the strict comparison fails |
| `TreeSteps.FromRightOk` | app/storage/block_tree.c:2345-2422 | taking an entry from the right sibling fills the short node, leaves the sibling full enough and keeps all entries in order |
| `TreeSteps.FromLeftOk` | app/storage/block_tree.c:2345-2422 | the same for the left sibling |
| `TreeSteps.MergeNodesOk` | app/storage/block_tree.c:2423-2470 | a short node and a sibling without entries to spare fit into one good node |
| `BlockTrees.BlockTree.WriteNode` | app/storage/block_tree.c:1545-1585 | only an owned block is written in place; otherwise the node goes to a block that was not in use, and the old block leaves the blocks of the tree |
| `BlockTrees.BlockTree.PutLeaf` | app/storage/block_tree.c:1631-1707 | replacing a leaf copies every node on the path that is not owned, relinks the parents and changes nothing else |
| `BlockTrees.BlockTree.Split` | app/storage/block_tree.c:1836-2084 | cascading splits up to a new root end with a good tree that has the same entries and the pending one |
| `BlockTrees.BlockTree.Allocate` | app/storage/block_tree.c:1875-1895 | where a split allocates, the tree can be searched and already reads as the list of entries the insert ends with |
| `BlockTrees.BlockTree.Insert` | app/storage/block_tree.c:2506-2602 | exactly one entry is added, at a position that keeps the order; the tree stays good; no block outside the transaction changes, and every block it allocates is a node of the tree |
| `BlockTrees.BlockTree.UpdateKey` | app/storage/block_tree.c:1721-1773 | the separator left of a position is set, wherever on the path it is stored |
| `BlockTrees.BlockTree.Merge` | app/storage/block_tree.c:2285-2491 | merging a short node with its sibling keeps the entries and leaves at most the parent short |
| `BlockTrees.BlockTree.RemoveInternal` | app/storage/block_tree.c:2210-2275 | a parent that lost a child is rebalanced upward and an internal root with one child collapses, ending with a good tree |
| `BlockTrees.BlockTree.Remove` | app/storage/block_tree.c:2634-2722 | exactly one occurrence of the key and data is removed; the tree stays good for all capacities of at least two; no block outside the transaction changes, and every block the transaction owns is still a node of the tree, so the blocks of dropped nodes are given back |
| `BlockTrees.BlockTree.Update` | app/storage/block_tree.c:2739-2853 | an entry is replaced in place if and only if the list stays sorted, otherwise nothing changes; required only where the acceptance test is right |
| `TreeUpdate.AcceptsOrder` | app/storage/block_tree.c:2739-2853 | the acceptance test on the neighbouring keys agrees with the order exactly if the entry is the first with its key or the key does not shrink |
| `TreeUpdate.AcceptsTooMuch` | app/storage/block_tree.c:2739-2853 | a sorted list on which the test accepts a key that breaks the order |
| `BlockTrees.BlockTree.Copy` | app/storage/block_tree.c:2910-2915 | the copy has the same entries in the same blocks and owns none of them |
| `NodeBuffers.Node.Shift` | app/storage/block_tree.c:218-331 | for every index and child mode, keys and children end up as the old lists with the new entries spliced in, continued in the overflow, or cut and filled with zeros |
| `NodeBuffers.Node.Insert` | app/storage/block_tree.c:416-427 | a node with room takes the entry and nothing overflows; of a full one the last entry comes back |
| `NodeBuffers.Node.Remove` | app/storage/block_tree.c:376-384 | the buffer holds the record without that entry and child |
| `NodeBuffers.Node.ClearEnd` | app/storage/block_tree.c:394-401 | the lists are cut at the index and the rest is zero |
| `NodeBuffers.Node.Split` | app/storage/block_tree.c:1974-2010 | from two copies of a full node and one more entry the shifts make exactly the two halves and the key between them that the tree's split uses |
| `NodeBuffers.Node.MergeEntries` | app/storage/block_tree.c:342-364 | the buffer holds the joined record that the tree's merge uses |
| `NodeBuffers.Node.TakeFromRight` | app/storage/block_tree.c:2385-2396 | insert and shift make the two records that borrowing the first entry of the right sibling gives |
| `NodeBuffers.Node.TakeFromLeft` | app/storage/block_tree.c:2385-2396 | the same for the last entry of the left sibling |
| `NodeBuffers.Node.AddRight` | app/storage/block_tree.c:2033-2034 | the parent takes the key and its right child as the tree's split says; a full parent returns its last key and child |
| `TreeDepth.EntriesAtLeast` | app/storage/block_tree.c:1073-1092 | a tree of depth d >= 2 has at least 2 * leafmin * (innermin + 1)^(d - 2) entries |
| `TreeDepth.MinEntryCount` | app/storage/block_tree.c:2962-2977 | the loop of the configuration check computes that bound for the maximum depth |
| `TreeDepth.DepthBound` | app/storage/block_tree.h:31 | with at most as many entries as the check allows, no tree is deeper than the path array |
| `TreeDepth.SetDepthBound` | app/storage/block_tree.c:2937-2983 | a set of blocks of a device with n blocks has at most (n + 1) / 2 ranges, so its tree keeps within the limit |
| `RangeModel.LookedNext` | app/storage/block_set.c:250-294 | the range found by the lookup decides the answer, also among overlapping ranges |
| `RangeModel.JoinRanges` | app/storage/block_set.c:485-497 | extending a range over the gap to the next reads as the union, and dropping the next one restores the canonical form |
| `RangeModel.CutRange` | app/storage/block_set.c:564-578 | adding the tail range reads as the old set, and shortening the first one gives the difference in canonical form |
| `BlockSets.BlockSet.FindNextBlock` | app/storage/block_set.c:250-294 | the least block from a start on that is in the set, or is not in it: between updates, in the middle of one, and while the tree has a range only pending |
| `BlockSets.BlockSet.FindNextRange` | app/storage/block_set.c:307-319 | the first maximal stretch of blocks in the set |
| `BlockSets.BlockSet.Contains` | app/storage/block_set.c:329-334 | membership, except that block 0 is reported for an empty set |
| `BlockSets.BlockSet.RangeInSet` | app/storage/block_set.c:345-368 | whether all and whether none of the blocks of a range are in the set |
| `BlockSets.BlockSet.Overlap` | app/storage/block_set.c:379-408 | whether two sets have a block in common |
| `BlockSets.BlockSet.ExtendOver` | app/storage/block_set.c:485-497 | between update and remove the set reads as the new one |
| `BlockSets.BlockSet.AddRange` | app/storage/block_set.c:420-512 | set union, in canonical form, through every extend and merge case |
| `BlockSets.BlockSet.Cut` | app/storage/block_set.c:564-578 | between insert and update the set reads as the old one |
| `BlockSets.BlockSet.RemoveRange` | app/storage/block_set.c:523-593 | set difference, in canonical form, through every shrink, split and delete case |
| `BlockSets.BlockSet.Copy` | app/storage/block_set.c:667-685 | the copy has the same blocks, and no node of the source set is written |
| `AllocQueue.Queue.Find` | app/storage/block_allocator.c:96-113 | the one live item for a block, or that there is none |
| `AllocQueue.Queue.Add` | app/storage/block_allocator.c:137-176 | a request cancels the live item for its block, is queued if there is none, and does both if that item is the head being applied; refused exactly when the ring is full or the kinds differ |
| `AllocQueue.Queue.RemoveHead` | app/storage/block_allocator.c:198-205 | the oldest item leaves the ring |
| `AllocQueue.Queue.FindFreeBlock` | app/storage/block_allocator.c:215-230 | the least block from a start on that is not queued as allocated |
| `FreeSearch.FindFreeBlock` | app/storage/block_allocator.c:242-302 | the least block that is committed as free, in no active allocated set and not queued as allocated; 0 exactly if there is none |
| `AllocModel.AheadCancel` | app/storage/block_allocator.c:137-176 | cancelling a queued item accounts for the opposite request |
| `AllocModel.AheadApply` | app/storage/block_allocator.c:504-527 | applying the head keeps sets plus queued items equal to all requests |
| `AllocModel.ExposedExactly` | app/storage/block_allocator.c:137-176 | after a block the search can return is handed out, the search can return a held block if and only if an earlier allocation of that block is still on its way into a set |
| `AllocModel.HandedOutTwice` | app/storage/block_allocator.c:137-176 | a state with three requests in which the search can return a block that is held |
| `AllocModel.PickFree` | app/storage/block_allocator.c:242-302 | as long as held blocks on their way into a set are queued, the search returns no held block |
| `AllocModel.StillGuarded` | app/storage/block_allocator.c:137-176 | frees keep that condition, also of a block whose allocation is being applied, and so do allocations of all other blocks |
| `AllocModel.BookLogged` | app/storage/block_allocator.c:373-469 | the ledger the sets converge to is the sum of the logged requests |
| `AllocModel.ExtendedJoin` | app/storage/block_allocator.c:504-527 | the log of two batches of requests, one after the other, is the log of the joined batch |
| `Allocators.Allocator.HandleRequest` | app/storage/block_allocator.c:315-415 | a nested request is logged exactly once: an allocation with the block the search chooses, a free with its block; one that is not allowed is not |
| `Allocators.Allocator.Nested` | app/storage/block_allocator.c:137-176 | a set update takes all requests that are due at it, in order, and the log is the old one with exactly those |
| `Allocators.Allocator.Enqueue` | app/storage/block_allocator.c:137-176 | every request is counted in the log and changes the totals by exactly that request, whatever the head being applied is; says exactly when a held block becomes returnable |
| `Allocators.Allocator.Pick` | app/storage/block_allocator.c:242-302 | the least block from a start on that is free, not held by others, not in the sets and not queued; 0 if there is none |
| `Allocators.Allocator.AddAllocated` | app/storage/block_allocator.c:373-396 | the sets come to show the item, whatever requests the set updates make on the way, and the search hint moves behind the block in exactly the cases of the source |
| `Allocators.Allocator.AddFree` | app/storage/block_allocator.c:429-469 | the same for a free, for all four places a block can be in |
| `Allocators.Allocator.ProcessQueue` | app/storage/block_allocator.c:504-527 | for any nested requests: every one of them is taken, and a drained queue leaves the sets equal to the sum of all requests |
| `Allocators.Allocator.Allocate` | app/storage/block_allocator.c:315-360 | the block is the least available one from the hint on, or of all; it is committed as free and held by nobody; the log grows by this request and exactly the nested ones |
| `Allocators.Allocator.Free` | app/storage/block_allocator.c:405-415 | the log grows by this request and exactly the nested ones, and the sets follow once the queue is empty |
| `Allocators.Allocator.MoveCursor` | app/storage/transaction.c:97-121 | between cursor moves the set being built is right below the cursor and untouched above it, whatever was allocated and freed meanwhile |
| `Allocators.Allocator.MergeFreeSets` | app/storage/transaction.c:77-134 | new free set = (old free set - blocks held) + all blocks freed, over any sequence of requests the merge itself causes, early frees included; no block of the new set's own tree is in it |
| `AllocModel.SoundDone` | app/storage/transaction.c:120-133 | once the cursor has passed every held and freed block the set being built is complete |
| `BlockCaches.WriteBack` | app/storage/block_cache.c:336-355 | writing a dirty entry back changes the disk and no reader's view |
| `BlockCaches.Cache.Lookup` | app/storage/block_cache.c:386-475 | the entry for the block, or the last of the unreferenced ones with the best score, taken over after being written back; nobody's view changes, no referenced entry is touched, and it fails only if every entry is referenced |
| `BlockCaches.Cache.Load` | app/storage/block_cache.c:487-515 | a loaded entry shows what a reader of the block sees; succeeds exactly if it is loaded and its MAC is the expected one |
| `BlockCaches.Cache.Get` | app/storage/block_cache.c:532-570 | one more reference, to the block's current data |
| `BlockCaches.Cache.Dirty` | app/storage/block_cache.c:905-928 | the block shows the entry's buffer from now on, every other block is as before |
| `BlockCaches.Cache.Put` | app/storage/block_cache.c:638-648 | releasing a reference changes no view; an unreferenced entry moves to the head of the list and the others keep their order |
| `BlockCaches.LeastRecent` | app/storage/block_cache.c:357-375 | among clean entries, among dirty ones and among temporary ones the least recently used is taken; a dirty one only if it is twice as far back as every clean one, a temporary one four times |
| `BlockCaches.Cache.Move` | app/storage/block_cache.c:1216-1253 | the data shows at the new block, the old block and all others read as before, a stale entry for the new block is dropped |
| `BlockCaches.Cache.CleanTransaction` | app/storage/block_cache.c:687-734 | everything the transaction wrote for good is on disk, no other block of the disk and no view changes |
| `BlockCaches.Cache.DiscardTransaction` | app/storage/block_cache.c:745-786 | exactly the blocks the transaction had changed read from disk again |
| `BlockCaches.Cache.DiscardDirty` | app/storage/block_cache.c:950-983 | the block reads from disk again, all others as before |
| `CacheLinks.ViewLink` | app/storage/block_cache.c:386-515 | the cache shows the dirty data of a block if there is any and else the disk, as the engine assumes |
| `CacheLinks.DiscardLink` | app/storage/block_cache.c:745-786 | discarding a transaction drops exactly its dirty blocks, as the engine's fail step does |
| `CacheLinks.CleanLink` | app/storage/block_cache.c:687-734 | after cleaning a transaction only its temporary blocks are dirty, as the engine's commit step requires |
| `CacheLinks.CleanStep` | app/storage/block_cache.c:336-355 | writing an entry back is the engine's write-back step: the disk gains the data and exactly that block is no longer dirty |
| `CacheLinks.WriteStep` | app/storage/block_cache.c:905-928 | changing an entry is the engine's write step |
| `CacheLinks.DiscardStep` | app/storage/block_cache.c:745-786 | discarding a transaction is what the engine's fail step does to the cache |
| `SuperBlocks.Build` | app/storage/super.c:102-142 | the bytes of a super block, with the version in both flag fields |
| `SuperBlocks.ChosenExactly` | app/storage/super.c:151-241 | said in bytes of the slots: the chosen slot is the usable one that follows the other or is alone; never both, and one whenever a slot is usable |
| `SuperBlocks.NeverChosen` | app/storage/super.c:151-199 | a slot of this version with an unknown flag or with sizes the device does not allow is never chosen, nor is one that is incomplete or in the wrong place |
| `SuperBlocks.NewerRefused` | app/storage/super.c:272-282 | a slot of a newer version that follows the other one is chosen and the mount is refused, with and without `clear` |
| `SuperBlocks.LoadSuperBlock` | app/storage/super.c:272-372 | the result of a mount in bytes of the taken slot: refused, empty with the device's sizes, or with the roots, sizes and version found there |
| `SuperBlocks.MountSizes` | app/storage/super.c:296-326 | whatever the slots hold, the sizes a mount uses are ones the device allows |
| `SuperBlocks.MountLast` | app/storage/super.c:336-372 | after n commits a mount starts with the roots, sizes and version that commit n has written |
| `SuperBlocks.TornSpare` | app/storage/super.c:151-241 | a write cut short after any number of bytes is complete or leaves a slot that is never chosen over the last commit |
| `SuperBlocks.LoadLast` | app/storage/super.c:212-241 | after n commits, loading finds commit n |
| `SuperBlocks.TornSlots` | app/storage/super.c:102-142 | after a torn write the slots are as for n commits or as for n + 1 |
| `Engine.NextInv` | app/storage/transaction.c:230-362 | every step keeps the invariant: committed blocks are on disk, dirty blocks and what transactions hold are free in the last commit and held once, both slots are in order, and the image being written is on disk |
| `Engine.StartInv` | app/storage/transaction.c:291-322 | once only temporary blocks of the transaction are dirty, everything the new image uses is on disk as the transaction saw it |
| `Engine.CrashSafe` | app/storage/transaction.c:291-322 | at any point of any run, power loss after any number of bytes of a super block write leaves a disk from which the last completed commit or the one being written is loaded, with every block it uses as the committing transaction saw it, whatever unused blocks hold |
| `Engine.InvLoads` | app/storage/super.c:336-372 | a mount without interference starts from the last commit |
| `Engine.DoneGrows` | app/storage/transaction.c:301-310 | no completed commit is ever lost |
| `Engine.Ownership` | app/storage/transaction.c:144-186 | in every reachable state, also during a commit, what two transactions hold is disjoint and committed as free, and what they free is not |
| `Engine.CommittedReads` | app/storage/block_cache.c:745-786 | in every reachable state a reader of a committed block sees the committed content, in the cache and on disk |
| `Engine.FailedUnseen` | app/storage/transaction.c:173-186 | between two commits every committed block reads the same, whatever transactions wrote, wrote back and discarded |
| `EngineReads.WriteReads` | app/storage/block_cache.c:905-928 | a write shows in its block at once and in no other |
| `EngineReads.WriteBackReads` | app/storage/block_cache.c:336-355 | writing back changes no view, and the disk has what was dirty |
| `EngineReads.HeldStep` | app/storage/transaction.c:144-186 | what a block shows that a transaction holds changes only by that transaction's own write, as long as it keeps the block |
| `EngineReads.ReadsOwnWrites` | app/storage/block_cache.c:532-570 | along any run a transaction reads from a block it holds what it last wrote there, whatever others do and whatever is written back |
| `EngineReads.CommitsOwnWrites` | app/storage/transaction.c:291-322 | the new image has in every block the transaction allocated what it last wrote there, and the disk has it too |
| `EngineReads.CommitImage` | app/storage/transaction.c:291-322 | every block of the new image has what the transaction saw, on disk too; one that it did not allocate is a committed block |
| `EngineReads.WritesSurvive` | app/storage/transaction.c:327-353 | from the end of a commit on, until the next one, its blocks read as their transaction last wrote them |
| `EngineReads.SurvivesExactly` | app/storage/transaction.c:327-353 | a transaction outlives a commit if and only if it frees nothing the commit frees, used no file it changed and the comparison met no read error; of the others nothing is left in the cache |
| `EngineReads.CrashForgets` | app/storage/super.c:336-372 | after power loss no transaction is left and every block of the loaded commit reads as committed |
| `EngineRuns.CanCommit` | app/storage/transaction.c:230-362 | from every state between commits a new transaction can take any free block, write it and commit: the new image differs in that block only, and all other transactions and their cached blocks stay |
| `EngineReads.RequestsAddUp` | app/storage/block_allocator.c:373-469 | along any run the sets of a transaction are the sum of the requests it has made |
| `EngineReads.CommitsFreeSet` | app/storage/transaction.c:77-134 | the free set of a commit is (old free set - allocated) + freed, summed over all requests, and temporary blocks are free in it; the merge of the allocator computes the same set |
| `Engine.FreedTwice` | app/storage/transaction.c:327-353 | if two commits free the same block, a commit in between had put it back into use |
| `Directories.TreeLookup` | app/storage/file.c:556-625 | lookup by path is exact under any hash collisions |
| `Directories.KeyLookup` | app/storage/file.c:689-696 | lookup by block finds the entry with that key or shows there is none |
| `Directories.FileTransaction.Find` | app/storage/file.c:713-844 | the block found for a path is the one in the directory as the transaction sees it |
| `Directories.FileTransaction.Create` | app/storage/file.c:638-680 | exactly that path is added to what the transaction sees, and exactly its block to what it owns |
| `Directories.FileTransaction.Touch` | app/storage/file.c:173-293 | the first change of a committed file redirects its path to the new block and frees the old one, later ones and those of new files change nothing |
| `Directories.FileTransaction.Delete` | app/storage/file.c:864-929 | exactly that path disappears from what the transaction sees; a committed file's block is freed once, the block of a new or changed file is given back, and no other block is freed |
| `Directories.FileTransaction.Complete` | app/storage/file.c:1126-1264 | succeeds if and only if no added path exists in the latest committed directory after updates and removals; then the new directory is exactly what the transaction sees; the committed tree's blocks are unchanged either way |
| `DirModel.Rebased` | app/storage/file.c:1144-1217 | after another commit the staged changes still fit if and only if it left alone the files they are about |
| `DirModel.SurvivorStaged` | app/storage/transaction.c:327-341 | a transaction that frees no block the commit frees still fits the directory the commit leaves |
| `DirModel.FoundByBlock` | app/storage/file.c:713-754 | finding a staged change by block is the same as finding it by path |
| `BlockMaps.BlockMap.Get` | app/storage/block_map.c:60-80 | the block mapped at an index, 0 if none |
| `BlockMaps.BlockMap.Set` | app/storage/block_map.c:89-126 | exactly one index is remapped or unmapped |
| `BlockMaps.BlockMap.Truncate` | app/storage/block_map.c:167-212 | terminates; what stays and what is returned for freeing together are the old map, cut at the index; truncating to 0 leaves a root leaf |
| `Files.File.PutBlock` | app/storage/file.c:319-476 | one block of the file is overwritten in part, in place if the transaction owns it and copied otherwise; every other byte is kept; a replaced block is freed, the new one was unused, and no other block is touched |
| `Files.File.Write` | app/storage/client_tipc.c:533-625 | the file is the old bytes with the buffer spliced in, or unchanged if the request is refused; blocks outside the transaction keep their data, every replaced block is freed and no other |
| `Files.File.Read` | app/storage/client_tipc.c:442-531 | exactly the bytes of the file from the offset on, up to its end |
| `Files.File.SetSize` | app/storage/client_tipc.c:665-711 | the file is cut to its first bytes, or unchanged if the request is refused; every unmapped block is free again if the transaction had allocated it and else freed by its commit, and nothing else changes |
| `Files.BalancedTwice` | app/storage/file.c:319-409 | freed, allocated and replaced blocks of successive changes add up |
| `DirModel.DropUpdated` | app/storage/file.c:902-917 | withdrawing a copy gives its block back and no longer frees the committed block for it |
| `FileModel.PutBytes` | app/storage/client_tipc.c:568-598 | writing into block k at or before the end splices the bytes into the file and maps exactly the blocks the file needs, so bytes behind a cut never show up |
| `FileModel.CutBytes` | app/storage/file.c:516-543 | unmapping from the rounded-up block on keeps exactly the blocks and bytes of the shorter file |

## Left out

- Encryption: block contents are what the cache hands out. A MAC is an arbitrary function of the contents.
- Queues of reads and writes in the cache: a write completes at once and without error, a read may fail.
- BlockTrees.BlockTree.WriteNode: the free of the replaced block shows as its leaving the set `blocks`; the call of the allocator is not made.
- Allocators.Allocator.ProcessQueue: when the loop limit is reached, the ring is full, no block is free or the search has returned a held block, the contract says which of these happened and promises nothing about the sets; the source asserts or fails the transaction there.
- Allocators.Allocator.MergeFreeSets: works on the contents of the block sets; the requests their trees make are an arbitrary script, a batch for every set update, not derived from the trees.
- BlockTrees.BlockTree.Update: requires a key that does not shrink, or no entry with the same key right before the entry; in the other case the source's test is wrong, see `TreeUpdate.AcceptsTooMuch`.
- BlockTrees.BlockTree.Insert: each tree has a store of its own, and a new block is any that is not in that store.
- The walk that starts again after an update of a range: the path is used as it was, since the entry did not move.
- Engine.NextInv: while a transaction is in `transaction_complete` no other one runs. Mounting with `clear` over existing super blocks is not a step.
- Integer widths: block numbers, offsets and sizes are unbounded.
- Files.File.Write: the file entry block and its size field are `Directories.FileTransaction.Touch` and the field `size`; an allocation failure inside a write is not modelled.
- Handles open in several transactions (`file_update_block_mac_tr`, `file_apply_to_commit`, `file_restore_to_commit`): the staging of block numbers and sizes per handle. Which transactions have used a changed file is a parameter of the engine's last commit step.
- Directories.FileTransaction.Delete: the data blocks of the deleted file (`block_map_free`) are not part of it; freeing all blocks of a file is `Files.File.SetSize` to 0.
- `transaction_check_free` and `check_free_tree`, which only check.
- Sessions, messages, path names and RPMB: glue over calls that are not part of this model.
