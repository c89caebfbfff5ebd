# A verified model of the train-ticket database

The repository is a disk-backed database for train tickets: a paged B+ tree and
slot files over a buffer pool with an LRU-K replacer, a red-black tree map, a
version tree of reversible binary deltas, and the booking engine on top. This
project models these five parts in Dafny and proves what each of them promises.

Code that changes things in place is modelled as classes and methods with loops,
each proved against a function or predicate on values; what the source promises
is then proved about those. Some conventions hold throughout.

* **B+ tree** (`BPlusTree*.dfy`). Pages are records in a map from page ids; the
  capacity `cap` is a parameter. A ghost list of levels, leaves first, says what
  the pages mean: `Sane` states uniform depth, minimum fill, separators that are
  the attained maximum of their subtree, the extra pointer on the rightmost path
  only, and the leaf chain. The search path is explicit and the fix-ups edit its
  indices, as the source does. `Contents()` is the map represented.
* **Red-black tree** (`RedBlack*.dfy`). Nodes are records in a map from
  addresses, with parent links. A ghost tree with the same shape is kept beside
  them; a place in it is a context (`Ctx`) and a subtree. `Rb(t, k)` is the colour
  rule and equal black height.
* **LRU-K** (`Replacer*.dfy`, `LruKReplacer.dfy`). `visits[f]` is the ghost list of
  all access times of a frame since it became active. `IsLruKVictim` is the rule of
  LRU-K stated on these lists, `IsVictim` what the two chains lead to.
* **Buffer pool** (`DiskManager.dfy`, `BufferPool*.dfy`, `PageGuards.dfy`,
  `PageCache.dfy`, `PageRuns.dfy`). The ghost map `committed` holds, for each page,
  what the last dirty guard left. `PageRuns` runs any list of client commands
  against the pool, against one flat store, and against LRU-K on the pages opened.
* **Slot files** (`SlotStorage.dfy`, `DiskMap.dfy`) and the map built from a B+ tree
  and a slot file.
* **Snapshots** (`Snapshot*.dfy`, `SnapShotManager.dfy`). Files are byte strings, the
  meta file is HEAD and a list of edges; the ghost map `contents` says what every
  version held when it was created.
* **Trains** (`Timetable.dfy`, `StopRegister.dfy`, `TrainSystem.dfy`,
  `TransferSearch.dfy`) and **bookings** (`Booking*.dfy`, `OrderHistory.dfy`). Trains, users and stations
  are identified by numbers, so hashes count as injective.

Where code and comments disagree the code is followed. Properties that are false
of the code are stated with the condition under which they hold.

* With `k` equal to 1 the replacer evicts the least recently used frame exactly in
  the states of `OnceIsOldest` (`VictimWithKOne`).
* Removing a version leaves all others reconstructible, whatever they hold, exactly
  if the current version is below no son but the one listed last
  (`RemovalIsRightIff`); `RemovalCanLose` is a run that goes wrong.
* Flushing a page keeps the pool in order exactly if the page is in a frame
  (`FlushPage`).
* A booking agrees with the query exactly between different stations; from a
  station to itself it finds the trains that call there without a stop over
  (`BookingAgrees`, `BookingOfOneStation`).
* The look-up of an order number finds an order of the user exactly if the user has
  one; numbers out of range name the newest (`LooksUp`).
* A leaf that has lost an entry keeps one exactly if pages hold three or more
  (`CanLoseOneIff`).

`dafny verify dfyconfig.toml` verifies the whole project.

## Model

| member | source | states |
|---|---|---|
| BPlusTreePage.LowerBound | storage/include/storage/bpt.hpp:38-42 | the binary search in a page finds the first index whose key is not below the one searched |
| BPlusTreePage.InsertSkewWithRoom | storage/include/storage/bpt.hpp:72-111 | a right-skew page with room replaces one separator by two; its past-the-end pointer survives whether it lies in the array or in `p_n` |
| BPlusTreePage.SplitWithInsert | storage/include/storage/bpt.hpp:223-267 | a full page and a fresh one hold the old entries and the new one in order, the fresh one exactly the last half, wherever the new entry falls |
| BPlusTreePage.SplitSkew | storage/include/storage/bpt.hpp:129-179 | a full right-skew page becomes a leaf-like page and a right-skew one that together record the split below, for every index including the past-the-end pointer |
| BPlusTreePage.SkewSplitView | storage/include/storage/bpt.hpp:129-179 | the entries the split loop writes are the old pointers with one separator made two |
| BPlusTreePage.RemoveSkewPointer | storage/include/storage/bpt.hpp:316-335 | dropping a pointer of a right-skew page merges two neighbouring separators into the later one |
| BPlusTreePage.BorrowFirst | storage/include/storage/bpt.hpp:520-550 | taking the right neighbour's first entry moves exactly that entry, and a right-skew neighbour keeps its extra pointer |
| BPlusTreePage.BorrowLastSkew | storage/include/storage/bpt.hpp:357-376 | a right-skew page takes the last entry of its left neighbour and keeps its extra pointer |
| BPlusTreePage.MergeNextIntoSelf | storage/include/storage/bpt.hpp:581-609 | absorbing the right neighbour appends its entries, and its extra pointer if it is right-skew |
| BPlusTreePage.MergeSkewIntoPrev | storage/include/storage/bpt.hpp:377-401 | a right-skew page appended to its left neighbour leaves a right-skew page with all entries |
| BPlusTreeShape.SplitStep | storage/include/storage/bpt.hpp:223-267 | splitting a page keeps the whole invariant from that level upwards except for the one missing separator |
| BPlusTreeShape.GrowStep | storage/include/storage/bpt.hpp:268-281 | splitting the root and planting a new one keeps the invariant, and the split level keeps its entries |
| BPlusTreeShape.SkewSplitStep | storage/include/storage/bpt.hpp:129-198 | splitting a full right-skew page records the split below it, and keeps the invariant above except for its own split |
| BPlusTreeShape.SkewGrowStep | storage/include/storage/bpt.hpp:184-195 | the same when the right-skew page is the root |
| BPlusTreeRepair.RepairStep | storage/include/storage/bpt.hpp:410-420 | renewing one stale separator restores attained maxima on its level, leaving at most the next level's separator stale |
| BPlusTreeRepair.CutStep | storage/include/storage/bpt.hpp:428-450 | removing an entry keeps the invariant but for minimum fill and the maximum of that one page |
| BPlusTreeShape.CanLoseOneIff | storage/include/storage/bpt.hpp:444-447 | a leaf that may lose an entry always has two, so that the key before the cut exists, if and only if a page holds at least three entries |
| BPlusTreeRepair.BorrowStep | storage/include/storage/bpt.hpp:497-556 | exchanging entries between two neighbours restores minimum fill and attained maxima and moves no entry out of order |
| BPlusTreeRepair.MergeStep | storage/include/storage/bpt.hpp:557-623 | merging two neighbours keeps all entries in order and leaves only the pointer to the page that went |
| BPlusTreeRepair.SkewCutStep | storage/include/storage/bpt.hpp:308-335 | dropping that pointer from a right-skew page makes its level agree with the one below again |
| BPlusTreeRepair.ShrinkStep | storage/include/storage/bpt.hpp:336-349 | a root with one child gives way to the child, and the invariant holds for the shorter tree |
| BPlusTreeSearch.Descend | storage/include/storage/bpt.hpp:45-59 | the lower bound among separators leads to the page that holds the lower bound among the entries |
| BPlusTreeSearch.InsertSorted | storage/include/storage/bpt.hpp:804-817 | an entry inserted at the lower bound keeps the order and adds exactly that key |
| BPlusTreeSearch.CutSorted | storage/include/storage/bpt.hpp:818-832 | an entry cut out keeps the order and removes exactly that key |
| BPlusTreeIndexer.BPlusTreeIndexer.InsertFixUpLoopPartA | storage/include/storage/bpt.hpp:66-128 | a split below a right-skew page is recorded on its level, the invariant holds from there up, and the recursion on the path ends |
| BPlusTreeIndexer.BPlusTreeIndexer.InsertFixUpLoopPartB | storage/include/storage/bpt.hpp:129-198 | the same when the right-skew page is full and is split itself, up to a new root |
| BPlusTreeIndexer.BPlusTreeIndexer.InsertEntryAt | storage/include/storage/bpt.hpp:199-307 | inserting into a leaf or leaf-like page, with splits passed on to either kind of parent, adds exactly that entry to the level and leaves the levels below alone |
| BPlusTreeIndexer.BPlusTreeIndexer.SplitRootLeaf | storage/include/storage/bpt.hpp:268-281 | a full leaf that is the root becomes two leaves under a new root |
| BPlusTreeIndexer.BPlusTreeIndexer.TryUpdateTillRoot | storage/include/storage/bpt.hpp:410-420 | one stale separator is renewed as far up as it is named, after which the invariant holds on all levels from there |
| BPlusTreeIndexer.BPlusTreeIndexer.RemoveEntryInRightSkewPath | storage/include/storage/bpt.hpp:308-409 | a pointer dropped from a right-skew page, with borrowing, merging or root shrinking above, restores the invariant and leaves the levels below alone |
| BPlusTreeIndexer.BPlusTreeIndexer.ShrinkRoot | storage/include/storage/bpt.hpp:336-349 | the root with a single child goes, and the tree is one level shorter |
| BPlusTreeIndexer.BPlusTreeIndexer.RemoveEntryAt | storage/include/storage/bpt.hpp:421-625 | removing an entry of a leaf or leaf-like page, through every borrow, merge and separator update, cuts exactly that entry out of the level |
| BPlusTreeIndexer.BPlusTreeIndexer.BorrowFromPrev | storage/include/storage/bpt.hpp:497-519 | borrowing from the left neighbour restores the invariant and keeps the level's entries |
| BPlusTreeIndexer.BPlusTreeIndexer.BorrowFromNext | storage/include/storage/bpt.hpp:520-556 | borrowing from the right neighbour does so, too |
| BPlusTreeIndexer.BPlusTreeIndexer.MergeSelfIntoPrev | storage/include/storage/bpt.hpp:557-580 | merging into the left neighbour and dropping the pointer above does so, too |
| BPlusTreeIndexer.BPlusTreeIndexer.MergeNextIntoPage | storage/include/storage/bpt.hpp:581-623 | absorbing the right neighbour and dropping the pointer above does so, too |
| BPlusTreeIndexer.BPlusTreeIndexer.DeletePage | storage/include/storage/bpt.hpp:570-573 | a page that has left the tree is given back to the pool; the invariant holds whether the pool frees it or, because a guard pins it, does not |
| BPlusTreeIndexer.BPlusTreeIndexer.FindPosition | storage/include/storage/bpt.hpp:28-65 | the search path is a path of the tree and ends at the lower bound of the key; `is_end` exactly if all keys are below it |
| BPlusTreeIndexer.BPlusTreeIndexer.FirstNotBelow | storage/include/storage/bpt.hpp:769-796 | `lower_bound` is the place of the least key not below the one searched, or the end |
| BPlusTreeIndexer.BPlusTreeIndexer.Next | storage/include/storage/bpt.hpp:660-714 | `++` goes from one entry to the next in key order, across leaf links, and to the end after the last |
| BPlusTreeIndexer.BPlusTreeIndexer.ScanFrom | storage/include/storage/bpt.hpp:660-714 | repeated `++` from a lower bound visits every stored key not below it once, in ascending order |
| BPlusTreeIndexer.BPlusTreeIndexer.Get | storage/include/storage/bpt.hpp:797-803 | `Get` is map lookup, and the invalid index for an absent key |
| BPlusTreeIndexer.BPlusTreeIndexer.Put | storage/include/storage/bpt.hpp:804-817 | `Put` keeps the full invariant, the map becomes `old[key := value]`, and `siz` is its size |
| BPlusTreeIndexer.BPlusTreeIndexer.Remove | storage/include/storage/bpt.hpp:818-832 | `Remove` keeps the full invariant, deletes exactly that key, answers what it mapped to, and `siz` is the map's size |
| BPlusTreeIndexer.BPlusTreeIndexer.Size | storage/include/storage/bpt.hpp:833 | the counter is the number of keys |
| BPlusTreeHeight.Shallow | storage/include/storage/bpt_page.hpp:13-20 | a tree of `h` levels, two or more, holds at least `2 * ((cap + 1) / 2)^(h - 1)` entries: minimum fill makes its height logarithmic |
| SlotStorage.Reused | storage/include/storage/single_value_storage.hpp:81-88 | taking the first blank slot gives a slot that is not live, and the chain goes on with the rest |
| SlotStorage.Extended | storage/include/storage/single_value_storage.hpp:89-101 | a new page's slots are all new, its first live and the others one chain, for any number of slots in a page |
| SlotStorage.Blanked | storage/include/storage/single_value_storage.hpp:119-126 | a deleted slot heads the chain; live and blank slots stay disjoint and together are all slots |
| SlotStorage.SlotStorage.Write | storage/include/storage/single_value_storage.hpp:78-103 | the slot handed out is the first blank one or the first of a new page; it is not live and not zero, and holds the record |
| SlotStorage.SlotStorage.Update | storage/include/storage/single_value_storage.hpp:105-109 | only the given slot's record changes |
| SlotStorage.SlotStorage.Read | storage/include/storage/single_value_storage.hpp:112-116 | the record last written to the slot |
| SlotStorage.SlotStorage.Delete | storage/include/storage/single_value_storage.hpp:119-126 | the slot is no longer live and every page's count of live slots stays exact |
| DiskMap.OwnsMore | storage/include/storage/disk_map.hpp:102-104 | a new key with an unused slot keeps keys and live slots one to one |
| DiskMap.DiskMap.HasKey | storage/include/storage/disk_map.hpp:74 | membership in the map |
| DiskMap.DiskMap.Get | storage/include/storage/disk_map.hpp:75-86 | the value last put under the key, or an error if there is none |
| DiskMap.DiskMap.Size | storage/include/storage/disk_map.hpp:87 | the size of the map |
| DiskMap.DiskMap.Remove | storage/include/storage/disk_map.hpp:88-94 | the key and its slot go, and nothing else |
| DiskMap.DiskMap.Put | storage/include/storage/disk_map.hpp:95-105 | the map becomes `old[key := value]`, true exactly for a new key; keys keep slots of their own |
| RedBlackMap.RotatedItems | stlite/map.hpp:86-109 | a rotation keeps the order of the items |
| RedBlackMap.RedBlackMap.RotateLeft | stlite/map.hpp:86-97 | the pointer surgery turns the mirrored tree at that place, in any context, and keeps all parent links |
| RedBlackMap.RedBlackMap.RotateRight | stlite/map.hpp:98-109 | the same to the right |
| RedBlackMap.RedBlackMap.InsertFixUp | stlite/map.hpp:110-157 | from a red node under a possibly red parent to a tree with the colour rule and equal black height and the same items; the recursion ends |
| RedBlackMap.RedBlackMap.NodeInsert | stlite/map.hpp:172-201 | the recursive insert adds the key in its place, or finds it and replaces its value only if that is allowed |
| RedBlackMap.RedBlackMap.NodeFind | stlite/map.hpp:215-225 | the node of the key, or null exactly if the key is not in the tree |
| RedBlackSwap.SwapStep | stlite/map.hpp:233-268 | swapping a node with its successor by relinking, near or far, yields the tree with the two nodes' places and colours exchanged |
| RedBlackMap.RedBlackMap.SwapNodeWithItsSuccessor | stlite/map.hpp:233-268 | the statement sequence of the swap does that, at the root or below |
| RedBlackTree.SiblingRaisedShort | stlite/map.hpp:274-285 | case 1: after the red sibling is raised the node is still one black short and nothing else is wrong |
| RedBlackTree.SiblingRed | stlite/map.hpp:295-312 | cases 2 and 3: painting the sibling red evens the parent, which takes over the shortage if it was black |
| RedBlackTree.SiblingBentShort | stlite/map.hpp:313-326 | case 4, also with both nephews red: the node is still short, with the distant nephew red, whatever the colours below |
| RedBlackTree.SiblingTopRb | stlite/map.hpp:327-337 | case 5 ends the shortage: colour rule and equal black height hold |
| RedBlackTree.Balanced | stlite/map.hpp:269-338 | a tree with the colour rule and equal black height is no higher than twice the logarithm of its number of items plus one |
| RedBlackMap.RedBlackMap.DeleteFixUp | stlite/map.hpp:269-338 | from a node one black short to a tree with the colour rule and equal black height and the same items; the recursion through all five cases ends |
| RedBlackMap.RedBlackMap.DeleteNode | stlite/map.hpp:339-371 | the node goes, the order of all other items stays, and the tree is red-black with a black root |
| RedBlackMap.RedBlackMap.Insert | stlite/map.hpp:694-703 | the map gains the key if it was absent and stays as it is otherwise; the position returned is the key's |
| RedBlackMap.RedBlackMap.Index | stlite/map.hpp:632-642 | `operator[]` makes the default value for an absent key |
| RedBlackMap.RedBlackMap.Write | stlite/map.hpp:632-642 | assignment through a reference changes that key's value only |
| RedBlackMap.RedBlackMap.Find | stlite/map.hpp:737-740 | the position of the key, or the end exactly if it is absent |
| RedBlackMap.RedBlackMap.Value | stlite/map.hpp:615-620 | `at` gives the mapped value and fails exactly for absent keys |
| RedBlackMap.RedBlackMap.Count | stlite/map.hpp:727-730 | one or zero as the key is in the map |
| RedBlackMap.RedBlackMap.Size | stlite/map.hpp:678 | `node_count` is the size of the map |
| RedBlackMap.RedBlackMap.EraseAt | stlite/map.hpp:709-713 | exactly that element goes; all others keep their nodes, so other iterators stay good |
| RedBlackMap.RedBlackMap.Erase | stlite/map.hpp:714-719 | exactly that key goes |
| RedBlackMap.RedBlackMap.Begin | stlite/map.hpp:650-655 | the node of the least key, or the end exactly for the empty map |
| RedBlackMap.RedBlackMap.Next | stlite/map.hpp:413-429 | `++` goes to the node of the next key, with no key of the map between, and to the end after the greatest |
| RedBlackOrder.MapAround | stlite/map.hpp:709-719 | taking one item out of an ascending list takes exactly its key out of the map |
| ReplacerChain.RemoveFromList | storage/include/storage/replacer.h:40-47 | unlinking a node leaves a doubly linked list of the other nodes, in order |
| ReplacerChain.InsertAt | storage/include/storage/replacer.h:48-54 | a new node before the closing guard is linked both ways |
| ReplacerChains.MainChain.AddRecord | storage/src/replacer.cpp:68-74 | the frame's own chain of accesses gains the newest one; other frames' chains stay |
| ReplacerChains.MainChain.DropOldest | storage/src/replacer.cpp:164-169 | the frame's oldest access goes, and the next oldest is found |
| ReplacerChains.MainChain.DropAll | storage/src/replacer.cpp:57-66 | all accesses of a frame go, and no others |
| LruKReplacer.VictimIsLruK | storage/src/replacer.cpp:96-132 | for `k >= 2` and every history, the frame the chains lead to is the LRU-K victim: fewer than `k` visits first, then the oldest `k`th most recent visit |
| LruKReplacer.VictimWithKOne | storage/src/replacer.cpp:145-163 | for `k == 1` it is exactly if no evictable frame was visited once, or one of them was last visited before all evictable frames visited more often |
| LruKReplacer.YoungWithKOne | storage/src/replacer.cpp:145-163 | a state in which it is not: a frame visited once goes before one whose last visit is older |
| LruKReplacer.LRUKReplacer.SetEvictable | storage/src/replacer.cpp:39-55 | only that frame's membership in the evictable frames changes, and only if it is active |
| LruKReplacer.LRUKReplacer.RecordAccess | storage/src/replacer.cpp:134-171 | the access is the frame's latest, and the chains hold the last `min(k, visits)` accesses of each active frame in time order |
| LruKReplacer.LRUKReplacer.TryEvictExactFrame | storage/src/replacer.cpp:76-94 | an evictable frame is forgotten; it fails exactly for the others |
| LruKReplacer.LRUKReplacer.FirstInLru | storage/src/replacer.cpp:106-116 | the first evictable frame of the LRU chain has the oldest last visit of the evictable young frames; there is none only if no young frame is evictable |
| LruKReplacer.LRUKReplacer.FirstInMain | storage/src/replacer.cpp:117-127 | otherwise the first in the main chain has the oldest `k`th most recent visit |
| LruKReplacer.LRUKReplacer.TryEvictLeastImportant | storage/src/replacer.cpp:96-132 | the victim is the one the LRU-K rule names, for `k == 1` exactly in the states above; it fails exactly if no frame is evictable |
| LruKReplacer.LRUKReplacer.GetCurrentEvitableCount | storage/src/replacer.cpp:173 | the counter is the number of evictable frames |
| DiskManager.DiskManager.AllocNewEmptyPageId | storage/src/disk_manager.cpp:81-96 | the page freed last, or one more page if none is free; not zero and not in use; pages in use keep their contents, and the free chain stays acyclic |
| DiskManager.DiskManager.DeallocatePage | storage/src/disk_manager.cpp:98-104 | the page heads the free chain, and the others keep their contents |
| DiskManager.DiskManager.CurrentNoneEmptyPageCount | storage/src/disk_manager.cpp:108 | the counter is the number of pages in use |
| BufferPool.TableInjective | storage/src/buffer_pool_manager.cpp:122-202 | in a sound pool two pages never share a frame |
| BufferPool.EvictStore | storage/src/buffer_pool_manager.cpp:189-193 | an evicted page's committed contents are on disk afterwards, dirty or not |
| BufferPoolManager.BufferPoolManager.NewPage | storage/src/buffer_pool_manager.cpp:122-158 | a new page is pinned once, in the first free frame or else in the LRU-K victim's; it adds one access to the frame's history; all other pages keep their pins, contents, histories and commitments; it fails exactly if there is no free and no evictable frame |
| BufferPoolManager.BufferPoolManager.FetchPage | storage/src/buffer_pool_manager.cpp:160-202 | the page's committed contents, from memory, the first free frame or the LRU-K victim's; exactly one access is added, to the history of a page that is there, or as the only one of a page that comes in; nothing else changes for clients |
| BufferPoolManager.BufferPoolManager.UnpinPage | storage/src/buffer_pool_manager.cpp:204-224 | one pin less and no access, and a dirty unpin commits what the memory holds; after a clean last unpin of a page with unsaved changes it is open what the page holds; a frame is evictable exactly at pin count zero |
| BufferPoolManager.BufferPoolManager.FlushPage | storage/src/buffer_pool_manager.cpp:226-238 | a resident page is written out unseen; the pool stays sound exactly if the page was resident |
| BufferPoolManager.BufferPoolManager.FlushAllPages | storage/src/buffer_pool_manager.cpp:240-245 | every resident page is on disk, and clients see nothing of it |
| BufferPoolManager.BufferPoolManager.DeletePage | storage/src/buffer_pool_manager.cpp:247-268 | refused exactly while pinned; a resident page goes with its history, its frame is free, others are undisturbed |
| PageGuards.LastIsDirty | storage/src/buffer_pool_manager.cpp:19-27 | the last guard of a page with unsaved changes is a dirty one, so nothing is lost when it goes |
| PageGuards.Drop | storage/src/buffer_pool_manager.cpp:19-27 | a dirty guard commits what it leaves, and the guards account for all pins |
| PageGuards.FetchPageBasic | storage/src/buffer_pool_manager.cpp:270-274 | a guard holds its page with the committed contents, or the pool is full |
| PageGuards.NewPageGuarded | storage/src/buffer_pool_manager.cpp:298-302 | a guard holds a page nobody had, or the pool is full |
| PageRuns.PinnedFrames | storage/src/buffer_pool_manager.cpp:122-202 | there are at most as many pinned pages as frames, and as many exactly if every frame holds one |
| PageRuns.RoomIff | storage/src/buffer_pool_manager.cpp:122-202 | a page can be brought in exactly if the pages under guards do not fill the frames |
| PageRuns.Write | storage/include/storage/buffer_pool_manager.h:105-113 | a write under one of several guards shows under all guards of that page and no others |
| PageRuns.Remove | storage/src/buffer_pool_manager.cpp:247-268 | a held page is kept; otherwise it goes exactly if it was in a frame, and the client is told success in either case |
| PageRuns.Execute | storage/src/buffer_pool_manager.cpp:122-302 | one command of a client with any number of open guards: open, new page, look, write, drop, flush, flush all, delete; the reply and the new state are those of a flat store, the pool is full exactly if the guards hold as many pages as it has frames, and the pages kept in memory change by the one access or deletion |
| PageRuns.Replay | storage/src/buffer_pool_manager.cpp:122-302 | over any run of such commands, whatever is evicted, every reply is one a flat store gives at that point, and every page given up is, for `k >= 2`, the one LRU-K names among the pages opened and not held |
| PageRuns.LooksAtLastPut | storage/src/buffer_pool_manager.cpp:122-302 | in every run a look at a page shows what the last write to it left, under whichever guard |
| PageRuns.OneCacheRun | storage/src/replacer.cpp:96-171 | for `k >= 2` the commands and replies determine which pages are in memory at every point |
| PageCache.VictimMirrors | storage/src/replacer.cpp:96-132 | the frame that LRU-K gives up holds the page that the rule names on the pages' own accesses |
| PageCache.OneGivenUp | storage/src/replacer.cpp:134-171 | no two accesses are at one time, so the rule names one page |
| PageCache.FramesOfPages | storage/src/buffer_pool_manager.cpp:122-202 | there is a free frame exactly if fewer pages than frames are in memory |
| SnapshotDelta.WordRoundTrip | dataguard/src/snapshot.cpp:94-102 | four bytes, high first, give the number back |
| SnapshotDelta.PatchCovered | dataguard/src/snapshot.cpp:200-248 | patching with the differing runs gives the one string from the other, in either direction |
| SnapshotDelta.ScanCovers | dataguard/src/snapshot.cpp:90-129 | the scan's runs cover exactly the places where the strings differ |
| SnapshotDelta.DeltaExact | dataguard/src/snapshot.cpp:90-129 | every byte of a run differs, and no two runs touch: the runs are as short and as few as can be |
| SnapshotDelta.EncodedRun | dataguard/src/snapshot.cpp:94-129 | a run is a zero, its length and place as four bytes each, high first, its old bytes and its new ones |
| SnapshotDelta.EncodedDelta | dataguard/src/snapshot.cpp:90-159 | a delta is its runs in order, then a mark for bytes cut off or grown and those bytes, or one mark alone if there is nothing |
| SnapshotDelta.RoundTrip | dataguard/src/snapshot.cpp:79-159 | for strings shorter than 2^32, of equal or different lengths, one delta leads forward from old to new and back |
| SnapshotPatch.GenerateDiff | dataguard/src/snapshot.cpp:74-159 | the loop writes the encoding of that delta |
| SnapshotPatch.ApplyPatch | dataguard/src/snapshot.cpp:193-300 | the decoder applies an encoded delta in the direction asked for, with all four flags, to any file; it ends exactly if the delta fits the file's length |
| SnapshotTree.StepPatches | dataguard/include/dataguard/snapshot.h:96-112 | one marked step turns the contents of one version into those of its neighbour |
| SnapshotTree.WayIsPatches | dataguard/include/dataguard/snapshot.h:96-112 | so a whole marked way turns the contents of its start into those of its end |
| SnapshotTree.ClosedIsAll | dataguard/include/dataguard/snapshot.h:62-87 | a search that has no new neighbours has seen every version |
| SnapshotTree.OnlyLastStep | dataguard/src/snapshot.cpp:515-534 | a way to a version uses a delta of one of its sons in its last step at most |
| SnapshotTree.EntersThrough | dataguard/src/snapshot.cpp:509-523 | a way that enters its end from a son starts below that son |
| SnapshotTree.TreeRebased | dataguard/src/snapshot.cpp:536-543 | the edge list rewritten for a removed version with sons is a tree of all other versions |
| SnapshotTree.TreePruned | dataguard/src/snapshot.cpp:495-501 | so is the one for a version without sons |
| SnapShotManager.SnapShotManager.CreateSnapShot | dataguard/src/snapshot.cpp:324-364 | the data becomes a new version below the current one, as the last of its sons, with the encoded delta from the current contents, and becomes current; a known name is refused and changes nothing |
| SnapshotTree.EdgeAppended | dataguard/src/snapshot.cpp:346-352 | the line added to the meta file gives the new version its ancestor and puts it last among the sons; every other version keeps its ancestor and its sons |
| SnapShotManager.SnapShotManager.Search | dataguard/include/dataguard/snapshot.h:62-87 | the breadth-first search ends, and reaches the current version |
| SnapShotManager.SnapShotManager.FindWay | dataguard/include/dataguard/snapshot.h:40-95 | for every version mentioned, a way from the current one whose marks fit the edges' directions |
| SnapShotManager.SnapShotManager.ApplyLongChange | dataguard/include/dataguard/snapshot.h:96-112 | the file becomes what the walk over the deltas gives, or the walk breaks off; along a way of a sound repository that is exactly the end's contents (`WayIsPatches`) |
| SnapShotManager.SnapShotManager.SwitchToSnapShot | dataguard/src/snapshot.cpp:398-445 | the frontier becomes exactly the wanted version's contents |
| SnapShotManager.SnapShotManager.CheckOutFrontier | dataguard/src/snapshot.cpp:366-396 | the data file becomes the current version |
| SnapShotManager.SnapShotManager.RebaseSon | dataguard/src/snapshot.cpp:515-534 | the son's delta is replaced by the one from the ancestor to what the walk over the present deltas gives, which may be wrong when some of them have been replaced already |
| SnapShotManager.SnapShotManager.RemoveSnapShot | dataguard/src/snapshot.cpp:447-544 | refused exactly for INIT, the current version and unknown ones; afterwards the repository is sound if and only if every remaining edge has the right delta, which holds whenever the current version is below no son but the last listed |
| SnapshotTree.SonsMoved | dataguard/src/snapshot.cpp:536-543 | after a removal the version's sons come behind its ancestor's other sons, in their order; all other lists of sons lose only that version |
| SnapshotRemoval.OwnDeltaIsLast | dataguard/src/snapshot.cpp:522-526 | a way uses the end's own delta in its last step at most |
| SnapshotRemoval.RewalkedWay | dataguard/src/snapshot.cpp:522-529 | after the son on the way has been rebased, walking the way again gives the ancestor's contents |
| SnapshotRemoval.RewalkedRight | dataguard/src/snapshot.cpp:522-529 | so the removed version is rebuilt for the next son if and only if it had the ancestor's contents |
| SnapshotRemoval.SafeIsRight | dataguard/src/snapshot.cpp:509-544 | the removal is right if the current version is below no son but the last, and also if the removed version equals its ancestor |
| SnapshotRemoval.WrongRemoval | dataguard/src/snapshot.cpp:515-534 | if the current version is below a son that is followed by another, the other's delta comes out wrong for given contents of three versions, whatever the rest of the tree |
| SnapshotRemoval.RemovalIsRightIff | dataguard/src/snapshot.cpp:447-544 | for every tree, current version and removed version: the removal is right for all contents if and only if the current version is below no son but the last listed |
| SnapshotRemoval.RemovalCanLose | dataguard/src/snapshot.cpp:515-534 | the removal run on a sound repository of four versions; afterwards the fourth is rebuilt with other contents than its own |
| Timetable.LeavesBeforeArriving | src/train_system.cpp:254-276 | with positive travel times a train leaves one stop before it arrives at another exactly if it visits them in that order |
| Timetable.OffsetsAre | src/train_system.cpp:254-276 | a train's offsets are the sums of the travel times so far and of the stops after the first |
| Timetable.TotalIs | src/transaction_system.cpp:464-466 | the price of a way is the sum of its legs' prices |
| StopRegister.PutKeeps | src/include/stop_register.hpp:79-101 | a put keeps the register sorted, leaves exactly one value at the key, and changes no entry at another key |
| StopRegister.JoinsOrEqual | src/include/stop_register.hpp:147-179 | the query and the booking differ only where both offsets are equal |
| StopRegister.StopRegister.AddStopInfo | src/include/stop_register.hpp:79-101 | the register stays sorted; the arrival and the departure, whichever exist, are found under their keys, cut to the widths of the register's fields, and no other entry changes |
| StopRegister.StopRegister.FindArrival | src/include/stop_register.hpp:132-156 | the inner loop finds the train's arrival or shows there is none, and passes over no later train's |
| StopRegister.StopRegister.QueryDirectTrains | src/include/stop_register.hpp:102-160 | the one-pass merge join lists exactly what the nested-loop join of departures and arrivals has, in train order, one entry a train |
| StopRegister.StopRegister.RequestSingleTrain | src/include/stop_register.hpp:161-204 | two point lookups find a bookable pair of entries exactly if there is one |
| StopRegister.StopRegister.FetchTrainLeavingFrom | src/include/stop_register.hpp:205-234 | exactly the trains that leave the station on the date on a day of sale |
| StopRegister.StopRegister.FetchTrainArrivingAt | src/include/stop_register.hpp:235-250 | exactly the trains that arrive at the station |
| TrainSystem.RegisteredOnce | src/include/stop_register.hpp:14-26 | the register has one entry a train, station and kind, as no train visits a station twice |
| TrainSystem.StopAdded | src/train_system.cpp:255-276 | the entries of a train's next stop are the only new ones, and none of its earlier stops is overwritten |
| TrainSystem.JourneyDates | src/include/stop_register.hpp:119-151 | a listed journey goes between the two stations, leaves on the requested date, its day lies in the seat ledger, and it takes as long as the legs and stops between |
| TrainSystem.JoinLists | src/include/stop_register.hpp:102-160 | in terms of plans: the query lists the released trains that run between the stations on the date, and no others |
| TrainSystem.BookingMeans | src/include/stop_register.hpp:161-204 | what the booking lookup finds, in terms of plans |
| TrainSystem.BookingAgrees | src/include/stop_register.hpp:161-204 | between two different stations the booking succeeds exactly for the trains listed, with the same entry |
| TrainSystem.BookingOfOneStation | src/include/stop_register.hpp:179-183 | from a station to itself the query lists nothing, and the booking succeeds exactly for trains that call there without a stop over |
| TrainSystem.TrainSystem.AddTrain | src/train_system.cpp:134-181 | a new train, unless one of that name exists, with a row of free seats for each day of sale and no others |
| TrainSystem.TrainSystem.DeleteTrain | src/train_system.cpp:183-220 | a train is withdrawn with its rows of seats, unless it is released; other trains' rows stay |
| TrainSystem.TrainSystem.ReleaseTrain | src/train_system.cpp:222-280 | once released, exactly the train's stops are in the register, with the offsets accumulated along its way |
| TrainSystem.TrainSystem.AddStop | src/train_system.cpp:255-276 | one stop's offsets are those of the plan, and its entries are added |
| TrainSystem.TrainSystem.QueryDirectTrains | src/include/stop_register.hpp:102-160 | the released trains that run between the stations on the date |
| TrainSystem.TrainSystem.RequestSingleTrain | src/transaction_system.cpp:447-455 | the journey of one train, for a booking |
| TransferSearch.CompareTransitive | src/transaction_system.cpp:345-350 | comparing names character by character is a total order |
| TransferSearch.CompareIs | src/transaction_system.cpp:345-350 | the comparison is negative exactly if at the first place where the names differ the first has the smaller character or has ended |
| TransferSearch.RankMeans | src/transaction_system.cpp:328-351 | one choice is no worse than another exactly by total time or total price first, as asked, then the other, then the two names in that order |
| TransferSearch.TwoJourneys | src/transaction_system.cpp:262-293 | a choice is feasible exactly if it is two direct journeys of released trains, the second leaving the station of change no earlier than the first arrives |
| TransferSearch.DaysToWait | src/transaction_system.cpp:283-288 | the rounded-up day step is the least number of days after which the second train leaves late enough |
| TransferSearch.EarliestDay | src/transaction_system.cpp:273-290 | the days it skips are infeasible, later days are no better, and past the last day of sale nothing is feasible |
| TransferSearch.OnSaleThen | src/transaction_system.cpp:263-269 | the error for a first train off sale cannot arise |
| TransferSearch.Sums | src/transaction_system.cpp:223-239 | prefix sums of prices and offsets |
| TransferSearch.Reachable | src/transaction_system.cpp:240-251 | the map holds exactly the stations the first train reaches after the start |
| TransferSearch.Better | src/transaction_system.cpp:328-351 | the nested comparisons keep the better of two by (time, price, id1, id2) or (price, time, id1, id2) |
| TransferSearch.TryChange | src/transaction_system.cpp:262-383 | one change at one station is weighed against the best so far |
| TransferSearch.CheckTransfer | src/transaction_system.cpp:206-386 | all changes between two trains are weighed |
| TransferSearch.QueryTransfer | src/transaction_system.cpp:165-191 | a solution is found exactly if some choice of trains, stations and days is feasible, and no feasible choice is better, in particular none is shorter or none cheaper, as asked, and ties go to the smaller name; its times, prices, station of change and least numbers of free seats are those of the choice |
| Booking.GrantConserves | src/transaction_system.cpp:619-626 | a pending order that fits may be granted: free seats and taken seats still make up the train, and none is negative |
| Booking.RefundConserves | src/transaction_system.cpp:594-604 | so may a successful one be refunded |
| Booking.NewConserves | src/transaction_system.cpp:456-492 | so may a new one be bought or queued |
| Booking.LeftUnfit | src/transaction_system.cpp:608-627 | an order the greedy scan leaves pending does not fit after the whole scan |
| Booking.FitsIff | src/transaction_system.cpp:467-471 | an order fits exactly if no segment is overdrawn when it takes its seats; an order from a stop to itself, exactly if the next segment has them |
| Booking.GreedyFirst | src/transaction_system.cpp:608-627 | first come, first served: the scan grants the first order exactly if it is pending and fits, and then does with what is left as if the rest were the whole queue |
| Booking.WithoutAt | src/include/transaction_mainenance.hpp:223-230 | removal by number takes exactly that record out of the queue |
| BookingSweep.SweptNext | src/transaction_system.cpp:608-627 | sweeping one record more is scanning one order more: seats, statuses and queue agree |
| BookingSweep.GrantedIff | src/transaction_system.cpp:615-619 | comparing the least number of free seats found by the loop with the tickets ordered decides whether the whole order fits, also for an order from a stop to itself |
| BookingSweep.SweepAdvances | src/transaction_system.cpp:608-627 | a sweep changes pending to success and nothing else |
| BookingEngine.OrderQueued | src/transaction_system.cpp:471-483 | queueing an order that does not fit keeps the ledger, the queues, and that no pending order fits |
| BookingEngine.OrderBought | src/transaction_system.cpp:484-492 | so does buying one that fits |
| BookingEngine.PendingRefunded | src/transaction_system.cpp:587-593 | so does refunding a pending order, whose record stays in the queue |
| BookingEngine.SweepDone | src/transaction_system.cpp:605-628 | after a sweep no pending order fits the free seats |
| BookingEngine.RefundServesFirst | src/transaction_system.cpp:598-627 | after a refund the first order of the queue, if pending, is granted exactly if it fits the seats that are free then; exactly the records of pending orders stay |
| BookingEngine.AvailableSeats | src/transaction_system.cpp:467-470 | the least of the seats on the way, or the next segment's if there is no way; seats outside do not matter |
| BookingEngine.ChangeSeats | src/transaction_system.cpp:487-489 | the seats of exactly the segments travelled change |
| BookingEngine.BookingEngine.PutOnSale | src/train_system.cpp:170-178 | on every segment of a new train-day all seats are free |
| BookingEngine.BookingEngine.AddOrder | src/include/transaction_mainenance.hpp:150-204 | the order becomes the newest of its user's history and, exactly if it is pending, the last of its queue; queues stay in order of distinct numbers, every pending order waits, and the history index stays exact |
| BookingEngine.BookingEngine.BuyTicket | src/transaction_system.cpp:440-493 | bought exactly if every segment of the way has the seats, at the sum of the way's prices times the tickets; queued exactly if not, queueing is accepted and the train could hold it; what becomes of seats, orders and queue in each case; in every state reached no pending order fits and seats are conserved |
| OrderHistory.LooksUp | src/include/transaction_mainenance.hpp:37-49 | in the index by user and descending number, the lower bound of an order's number is that order, for too large a number the newest one, and for a user without orders another user's counter or the end |
| OrderHistory.FetchSingleUserOrderHistory | src/include/transaction_mainenance.hpp:244-259 | reading the counter and looking up `total - n + 1` gives the order `n` places from the end of the user's history, and the last for `n < 1`; it fails exactly if there are fewer than `n` |
| OrderHistory.FetchFullUserOrderHistory | src/include/transaction_mainenance.hpp:231-243 | stepping on from the counter gives all orders of the user, newest first |
| OrderHistory.NthOfShown | src/include/transaction_mainenance.hpp:231-259 | the order named by `n` is number `n` of the list shown to the user, and the first for `n < 1` |
| OrderHistory.NewestIsFirst | src/include/transaction_mainenance.hpp:186-203 | an order just made is number 1, and the numbers of all earlier ones grow by one |
| OrderHistory.AddToHistory | src/include/transaction_mainenance.hpp:186-203 | the counter is raised and the order put under it: the index is that of the history with one order more |
| BookingEngine.BookingEngine.RefundTicket | src/transaction_system.cpp:548-631 | the order `n` places from the user's newest is refunded, once and exactly if the user is logged in and has so many; the sweep that follows grants exactly the orders a first-come greedy scan grants, whole, and statuses only move forward; in every state reached no pending order fits |
| BookingEngine.BookingEngine.Sweep | src/transaction_system.cpp:605-628 | the loop does what the greedy scan does to seats, statuses and queue, and seats stay conserved |
| BookingEngine.BookingEngine.SweepOne | src/transaction_system.cpp:608-627 | one record: granted if it fits, and removed unless it stays pending |

## Left out

- BPlusTreeIndexer.BPlusTreeIndexer.Remove: a capacity of 2 is not covered; with it a page may be left empty, and the code reads the key before its first (storage/include/storage/bpt.hpp:444-447, `CanLoseOneIff`). Page sizes in the repository give far more.
- BPlusTreeIndexer.BPlusTreeIndexer.NewPage: the buffer pool under the tree is a map of pages; that the pool is such a store is proved apart (`PageRuns.Replay`), and a full pool is not modelled in the tree.
- BPlusTreeIndexer.BPlusTreeIndexer.DeletePage: that pages are reclaimed is not claimed; the pool refuses pages that a guard still pins.
- BPlusTreeIndexer.BPlusTreeIndexer.Next: keys are integers, which stand for any strict total order; iterators hold a page id and an offset, and not a guard.
- RedBlackMap.RedBlackMap.Erase: erasing a key from an empty map is not covered, since the code calls `Find` on a null root (stlite/map.hpp:715).
- RedBlackMap: nodes are records in a map from addresses and not C++ objects; keys and values are integers; `--`, iterators of other maps, copying and moving maps are not modelled.
- BufferPoolManager.BufferPoolManager.FlushPage: what the pool does after its table has a stray entry is not modelled.
- PageRuns.OneCacheRun: the run starts from a pool in which no two accesses are at one time, an empty one for instance.
- PageRuns.Replay: a flush names a page under a guard, as flushing others can put the pool out of order; latches, and the read and write guards that take them, are not modelled.
- SlotStorage.SlotStorage.Update: slot ids are those handed out by `write`, as the source asks of its callers.
- SlotStorage: the file's pages are a list, as nothing else uses the file; that the pool below is such a store is proved apart.
- DiskMap.DiskMap.Put: a new key's slot id must be below the invalid index, 2^32 - 1; an overwrite has no condition.
- SnapShotManager.SnapShotManager.RemoveSnapShot: a patch that would not end (`Fits`) ends the removal with `Failed`, the sons before it rebased.
- SnapShotManager.SnapShotManager.CreateSnapShot: one data file instead of several drivers' files; a version named INIT puts the repository out of order, which the contract says.
- SnapshotPatch.ApplyPatch: compression is the identity; a buffer that is not an encoded delta is not covered. Reading past the end of the file gives 255, the reader's end mark cut to a byte (dataguard/src/snapshot.cpp:45).
- SnapShotManager: the meta file is its parsed form; its text is rewritten in place without being truncated (dataguard/src/snapshot.cpp:437, dataguard/src/snapshot.cpp:495).
- TrainSystem.TrainSystem.AddTrain: plans have at most 100 stations, visit each at most once, travel for at least a minute on every leg, start within 2^12 minutes, are on sale between 1 June and the register's last day, and last less than 2^14 minutes; names contain no zero character, and station names are numbers. Bookings keep a ledger of their own.
- StopRegister.LowerBound: the register's index is the ordered list that a B+ tree stands for (`BPlusTreeIndexer.FirstNotBelow`, `Next`), with its composite keys.
- BookingEngine.BookingEngine.BuyTicket: the two stops are those the booking look-up gives, in order, and the number of tickets is not negative; a user has fewer than 2^32 - 2 orders.
- BookingEngine.BookingEngine.RefundTicket: a number below 1 from a user without orders is not covered, as the look-up then gives another user's counter or reads past the end (`LooksUp`); the difference of the counter and the number must be an `int`.
- BookingEngine.BookingEngine.Sweep: `FetchQueue` sizes its result by the counter of all records ever queued, so after removals the tail is padding (src/include/transaction_mainenance.hpp:212-221); the model has live records only.
- Integer widths of counters, timestamps and prices; latches; destruction, and reopening of files.
- Command parsing and output, logging, the socket server, user accounts beyond being known and logged in, dates as text, `list`, `vector`, sorting of query results.
