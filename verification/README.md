# Verified models of the HFS Plus kernel extension

This project models the parts of Apple's HFS file system that keep the most state in step, and proves what they promise.

**Volume block allocator** (`core/VolumeAllocation.c`). A volume keeps five views of its free space: the allocation bitmap, a summary bit per bitmap block, a ten-entry cache of free extents, two lists of reserved ranges that are laid over the bitmap when it is read, and three counters. A sixth set, the blocks awaiting a trim, belongs to the journal. `Bitmaps`, `Summaries`, `FreeExtentCaches`, `BitmapViews` and `Searches` model each view and the word-by-word searches over them; `Accounts` and `VolumeSteps` say, on values, when the views agree; `Volumes` is the mount object whose methods are the allocator's operations; `VolumeRuns` covers arbitrary sequences of operations; `FreeScans` is the full scan of the bitmap.

The main invariant has three parts. `Apportioned`: reserved ranges, cached extents and pending trims only name blocks that are clear in the bitmap, no block is in both lists, and no reserved block is cached or awaiting a trim. `Counted`: the counters are exact. `Sound`: a set summary bit means that no block of its bitmap block is free. `VolumeRuns.Run` shows that every run keeps them, with two exceptions, each with its exact condition and an example. A deallocation that meets a clear block, but not in the first 32-bit word of its range, clears the words before it and then fails without counting them (`VolumeRuns.LeavesBehind`, `VolumeSteps.FailedFreeExample`); any other failed deallocation changes nothing that is counted. A tentative request granted while tentative ranges are being ignored cancels its own range without clearing the summary over it, which leaves the summary wrong unless those bits were clear before or are cleared by the tentative ranges it releases (`VolumeSteps.CancelSafe`, `VolumeSteps.SelfCancelExample`); a full scan repairs this.

**Catalog** (`core/hfs_catalog.c`, `core/UnicodeWrappers.c`). `Catalogs` models create, rename and delete over an ordered tree of records and threads, taken as a map from classes of equal keys; `KeyOrders` is the pair of key orders that defines those classes; `CnidAllocators` is the allocation of catalog node IDs; `Mangling` is the cutting and parsing of long names.

**B-tree node byte swap** (`core/hfs_endian.c`). `NodeSwaps` models the in-place swap of a catalog node in both directions. `NodeContents` says what the bytes of a node mean, field by field at the offsets of the format, and proves that a swap keeps it.

**Cnode hash** (`core/hfs_chash.c`). `CnodeHashes` models the hash as a state machine whose steps are the critical sections of the one mutex and the two unlocked writes of an exchange of file IDs, with the critical sections themselves as methods of a class. `CnodeRuns` covers every interleaving of the threads that use it.

## Where the code and its comments differ

- `add_free_extent_cache` is documented to return true when the extent was added, but its result is never set (`core/VolumeAllocation.c:5589-5661`): `FreeExtentCache.Add` always returns false.
- Stealing from the very start or end of a tentative range offers an extent of no blocks to the cache (`core/VolumeAllocation.c:1479-1495`), so cache entries may be empty.
- `UnicodeBinaryCompare` is documented to compare lengths first (`core/UnicodeWrappers.c:435-437`); it compares characters first, and lengths only when one name is a prefix of the other.
- A search that ignores tentative ranges still trusts the summary, which may call a bitmap block full because of tentative ranges. `VolumeSteps.StealingSees` gives the exact condition under which such a search misses nothing, and `VolumeSteps.StealingMisses` a volume on which it misses its only block.
- `cat_check_link_ancestry` is documented to stop one level below the root folder; it goes on through the root folder itself (`core/hfs_catalog.c:1886-1908`).
- An exchange of files writes both file IDs without the hash mutex and rehashes the nodes only later (`core/hfs_vnops.c:2518`, `core/hfs_vnops.c:2582`, `core/hfs_vnops.c:2620`). A lookup in between that makes a node can leave two nodes with one file ID in the hash. `CnodeRuns.StepValid` gives the exact condition for every step, `CnodeRuns.SplitExchange` follows the duplicate to the end of the exchange, and `CnodeRuns.ExchangeExample` is a run that ends with one.
- `cat_rename` and `cat_delete` trust the ID in the descriptor. If it is out of date they break the pairing of records and threads, and a refused rename may overwrite the record it started from with the one in its way (`core/hfs_catalog.c:1315-1340`); `Catalogs.Catalog.Rename` and `Catalogs.Catalog.Delete` give the exact conditions, and `Catalogs.StaleDelete`, `Catalogs.StaleRename` and `Catalogs.RefusedRename` a tree and a descriptor for each.
- `cat_delete` announces a check that a directory is empty and makes none (`core/hfs_catalog.c:1434-1444`); `Catalogs.ParentDeleted` is a folder with a file in it that goes.

## Conventions

Bitmap words are values in host order, with block 0 of a word in its high bit. The number of bits of a bitmap block is a power of two in the source, so its masks are remainders here. Block numbers and counts are natural numbers; sums that stay below 2^32 in the source are not wrapped, and the 32-bit arithmetic of the hexadecimal reader is written out. Reads of the bitmap and of the catalog tree always succeed. The metadata zone is off. Roving pointers, loaned blocks and the free space of a backing store are parameters.

## Model

| member | source | states |
|---|---|---|
| `VolumeRuns.Run` | core/VolumeAllocation.c:1086-1673 | Over any sequence of allocate, reserve, use, commit, release, deallocate, trim callback and scan, failed deallocations included: reservations, cache and trims keep to clear blocks and reserved blocks stay apart; the counters equal the clear bits and the summed reservations, and reserved blocks never exceed free blocks, until a deallocation that leaves the count behind stops the run, and then the count is behind by exactly the blocks it cleared; a sound summary stays sound at every step but the requests that spoil it, and an unsound one has been spoiled and not rebuilt since; and the bitmap is the result of a history in which only clear blocks were granted and only set blocks freed |
| `VolumeRuns.Step` | core/VolumeAllocation.c:1086-1673 | What one operation keeps, exactly when it fails, exactly when it leaves the free count behind and by how much, exactly when it turns a sound summary wrong, and what it did to the bitmap |
| `VolumeRuns.NotGrantedTwice` | core/VolumeAllocation.c:1333-1424 | In such a history, a block granted twice was freed in between |
| `VolumeRuns.ScanVolume` | core/VolumeAllocation.c:6099-6203 | The scan reports runs that add up to the free count less both reserved counts, changes only the summary, and leaves it sound whatever it was before |
| `Volumes.Volume.Allocate` | core/VolumeAllocation.c:1086-1552 | Which blocks are granted: those the search stage chose, rounded down for alignment (`Chosen`, `Rounded`); they were clear, not locked, and not tentative unless stealing, number at most the maximum, leave loaned and locked blocks free and fit the backing store, and number at least the minimum if contiguous; the new bitmap, lists and trims; the summary stays sound, for a granted request that cancels its own range if and only if the books before allowed it; a refusal leaves all but cache and summary alone and says which test or which exhausted search caused it, or, with a journal, that a run of the requested size is awaiting a trim |
| `VolumeSteps.FreeForUse` | core/hfs_vfsutils.c:2073-2109 | The most that leaves the loaned and locked blocks free and fits the backing store |
| `VolumeSteps.StartOf` | core/VolumeAllocation.c:1205-1223 | The block asked for, else the roving pointer, else the front of the volume |
| `Volumes.Volume.AllocateTentative` | core/VolumeAllocation.c:1115-1144 | Exactly when the tentative reservation is used, that then its first blocks are granted, as many as the maximum, the reservation and the space allow, rounded down for alignment, and that otherwise it is freed and an ordinary allocation made |
| `Volumes.Volume.CommitLocked` | core/VolumeAllocation.c:1104-1108 | A locked reservation becomes allocated up to the largest length that ends on the alignment and is not below the minimum, if there is one, and the rest of it is released |
| `Volumes.Volume.Commit` | core/VolumeAllocation.c:1418-1424 | The first blocks of a locked reservation become allocated and the reservation goes, keeping all invariants |
| `Volumes.Volume.UseTentative` | core/VolumeAllocation.c:1413-1440 | The first blocks of a tentative reservation become allocated or locked and leave the reservation, keeping all invariants |
| `Volumes.Volume.Take` | core/VolumeAllocation.c:1333-1519 | Granting free blocks keeps the invariants; for a request that cancels its own range, the summary is sound afterwards if and only if, before, every granted block in a bitmap block called full had one of the ranges to be released reach into that bitmap block |
| `Volumes.Volume.LimitTentative` | core/VolumeAllocation.c:894-915 | A new tentative reservation leaves at most the three most recent others, and the counter follows |
| `Volumes.Volume.StealTentative` | core/VolumeAllocation.c:1455-1518 | The list afterwards is exactly what each range keeps, in order; no range meets the taken blocks, nothing is newly reserved, the counter follows the list, and ranges that overlapped are apart again |
| `VolumeSteps.StolenMeans` | core/VolumeAllocation.c:1475-1517 | What the pass keeps of a list avoids the taken blocks and was reserved before |
| `VolumeSteps.StealMeans` | core/VolumeAllocation.c:1476-1516 | For every way a range can overlap the taken blocks, each of its other blocks is kept or given back, none is both, and what is kept is not empty and not the smaller part |
| `Volumes.Volume.ReleaseTentative` | core/VolumeAllocation.c:917-959 | Releasing a tentative reservation keeps the invariants and offers only its own blocks to the cache |
| `Volumes.Volume.ReleaseLocked` | core/VolumeAllocation.c:917-959 | Releasing a locked reservation keeps the invariants and drops its length from the counter |
| `Volumes.Volume.FreeTentative` | core/VolumeAllocation.c:972-975 | The counters stay exact when a tentative reservation is freed |
| `Volumes.Volume.FreeLocked` | core/VolumeAllocation.c:977-980 | The counters stay exact when a locked reservation is freed |
| `Volumes.Volume.Deallocate` | core/VolumeAllocation.c:1577-1673 | It succeeds exactly on allocated blocks of the volume; then the bits are cleared, the count raised and the invariants kept. On failure exactly the blocks before the first word with a clear block are cleared and the count is as before, so the counters stay exact if and only if that word is the first, or the range leaves the volume. With a journal the trim reported is the blocks and the free blocks around them, as far as the bitmap blocks, other used blocks and reservations allow |
| `VolumeSteps.FailedFreeExample` | core/VolumeAllocation.c:3200-3366 | A volume in order on which a refused deallocation leaves 33 blocks clear and a free count of one |
| `Volumes.Volume.UnmapBounds` | core/VolumeAllocation.c:3172-3187 | Around allocated blocks the bounds contain them and no reserved block, and end next to a reserved block or at the end of the block numbers |
| `Volumes.Volume.TrimCallback` | core/VolumeAllocation.c:685-704 | Extents written by the journal may enter the cache without breaking an invariant, and leave the pending trims |
| `VolumeSteps.SelfCancelSound` | core/VolumeAllocation.c:1498-1502 | After a request cancels its own range the summary is sound if and only if each bit over its blocks was clear before or is cleared by what the request releases |
| `VolumeSteps.SelfCancelExample` | core/VolumeAllocation.c:1498-1502 | A volume in order on which such a request leaves the summary wrong |
| `VolumeSteps.StealingSees` | core/VolumeAllocation.c:2360-2390 | With a sound summary, a search that may steal sees every block it may take if and only if no tentative block lies in a bitmap block called full |
| `VolumeSteps.StealingMisses` | core/VolumeAllocation.c:2360-2390 | A volume in order on which such a search does not see the one block it may take |
| `VolumeSteps.SeenIsFree` | core/VolumeAllocation.c:2360-2390 | With a sound summary and nothing ignored, a guided search sees exactly the free blocks |
| `VolumeSteps.Aligned` | core/VolumeAllocation.c:1320-1331 | Unless the maximum was found, the largest length from the minimum to the one found that ends on the alignment, if there is one; else the one found |
| `Accounts.CountersMatchView` | core/VolumeAllocation.c:3495-3497 | Exact counters give the number of clear blocks of the view a search uses, and reserved blocks never exceed free ones |
| `Accounts.ViewCount` | core/VolumeAllocation.c:1787-1855 | Laying disjoint clear ranges over a bitmap takes exactly their total length from its clear count |
| `Volumes.Volume.FindRun` | core/VolumeAllocation.c:3399-3860 | On a volume with a sound summary and nothing ignored, the guided search gives the answer of a plain scan; otherwise the first or the longest fit of the view with full bitmap blocks hidden |
| `Volumes.Volume.TryHard` | core/VolumeAllocation.c:2109-2150 | A run of the maximum at the block asked for is taken first, then the head of the cache if it holds the maximum, then the leftmost longest run; the result is as long as any free run of the volume, up to the maximum; disk full means that no run has the minimum |
| `Volumes.Volume.FindContig` | core/VolumeAllocation.c:2175-2312 | The answer may be taken and has the requested size; without reuse it meets no pending trim; it is the first fit from the start block on, else the first fit from the front, else disk full because there is none, unless there is a journal and a clear run of the requested size is awaiting a trim; then an answer is that of such a search from the start block or from where the journal said an overlap ends, and with reuse so is disk full |
| `VolumeSteps.OverlapMeans` | core/VolumeAllocation.c:340-343 | Two extents overlap if and only if they share a block |
| `Volumes.Volume.FindSome` | core/VolumeAllocation.c:2337-2396 | With no journal, a sound summary and nothing ignored, the guided search gives the answer of a plain scan; disk full means that every block is used, hidden or awaiting a trim |
| `Volumes.Volume.FindAnywhere` | core/VolumeAllocation.c:1247-1312 | Which blocks: the head of the cache, else the first run from the start block on, else the first from the front, else, if the journal may be flushed, the first that is awaiting a trim; disk full means that no block from 1 to the limit can be used, but for pending trims when no flush is allowed |
| `Volumes.Volume.FindKnown` | core/VolumeAllocation.c:2694-2744 | The first cached extent, cut to the maximum, may be taken; disk full exactly when there is none |
| `Volumes.Volume.Search` | core/VolumeAllocation.c:1196-1315 | The search stage: for each kind of request which blocks it gives, that they may be taken, and why it gave none |
| `Searches.FindContiguous` | core/VolumeAllocation.c:3399-3860 | First fit, or leftmost longest fit, of the bitmap with exactly the included reservations, over any number of bitmap blocks; disk full means no such run; only free blocks are cached, only full bitmap blocks marked |
| `Searches.Exhaust` | core/VolumeAllocation.c:3728-3757 | The exhaustive search is optimal: stopping when the best run is at least what remains loses no longer run |
| `Searches.FindAny` | core/VolumeAllocation.c:2337-2396 | The first run of clear blocks that are not avoided, in the view with full bitmap blocks hidden; it starts outside the avoided blocks |
| `Searches.FindAnyBitmap` | core/VolumeAllocation.c:2405-2669 | The first run of clear blocks that are not avoided, across words and bitmap blocks and past pending trims; it starts outside the avoided blocks |
| `Searches.FindUnused` | core/VolumeAllocation.c:3506-3630 | Skipping used blocks word by word stops at the first one that is not used or hidden |
| `Searches.PlainAnswerUnique` | core/VolumeAllocation.c:3399-3860 | A plain scan has exactly one answer, so two searches that give it agree |
| `Searches.GuidedIsPlain` | core/VolumeAllocation.c:2337-2396 | A search guided by a summary that hides no free block below its end gives the answer of a plain scan |
| `BitmapViews.ReadBitmapBlock` | core/VolumeAllocation.c:1787-1855 | A bitmap block as read is the bitmap with exactly the included reservations laid over it |
| `BitmapViews.ReadBitmapRange` | core/VolumeAllocation.c:1949-2011 | The same for a large read |
| `BitmapViews.Overlay` | core/VolumeAllocation.c:1787-1855 | Each way a range can meet the block, with the early return for a range that covers it |
| `BitmapViews.BitsSet` | core/VolumeAllocation.c:1760-1784 | Exactly the bits of the range are set, a quad at a time with partial ends |
| `Ranges.SubtractMeans` | core/rangelist.c:403-429 | Subtraction only shrinks a range, leaves nothing of the other, empties it only when covered, and keeps a longest part of it that is clear of the other |
| `Bitmaps.Bitmap.MarkAllocated` | core/VolumeAllocation.c:2783-2987 | Exactly the bits of the range are set, over partial words, whole words and bitmap blocks |
| `Bitmaps.Bitmap.MarkFree` | core/VolumeAllocation.c:3115-3366 | It succeeds exactly when the range is in the volume and all set, then clears exactly its bits; if it fails within the volume, exactly the bits before the first word that is not all set are cleared; the range to unmap contains it, is all clear, keeps to its bounds and cannot be widened within its bitmap blocks |
| `Bitmaps.StopsFirst` | core/VolumeAllocation.c:3200-3366 | A refused clearing has done nothing if and only if the first word of the range holds a clear block of it |
| `BlockMaps.ClearUndoesSet` | core/VolumeAllocation.c:2783-3366 | Freeing undoes allocating on a clear range |
| `BlockMaps.SetUndoesClear` | core/VolumeAllocation.c:2783-3366 | Allocating undoes freeing on a set range |
| `Summaries.SummaryTable.Release` | core/VolumeAllocation.c:4238-4271 | Exactly the bits that the range reaches into are cleared, or none if it is not in the volume |
| `Summaries.SummaryTable.FindFree` | core/VolumeAllocation.c:4291-4381 | The block suggested is the first from the given one on whose bit is clear; no space means that every bit up to the limit is set |
| `Summaries.SummaryTable.Set` | core/VolumeAllocation.c:4434-4464 | Exactly one bit of the table changes |
| `FreeExtentCaches.FreeExtentCache.Remove` | core/VolumeAllocation.c:5469-5565 | It ends, though it steps back and inserts while it goes; no entry meets the range, and the list holds the best of all pieces left |
| `FreeExtentCaches.RemovalCoverage` | core/VolumeAllocation.c:5469-5565 | The blocks covered are exactly the old ones without the range, unless a split of a full list drops one entry |
| `FreeExtentCaches.BestMeans` | core/VolumeAllocation.c:5393-5452 | The first entry is the longest known, or the lowest on a sparse device, and no entry left out is better than one kept |
| `FreeExtentCaches.FreeExtentCache.Add` | core/VolumeAllocation.c:5589-5661 | The list holds the best of the old entries with the new extent merged with all it touches, in either order, within the limit |
| `FreeExtentCaches.AdditionCoverage` | core/VolumeAllocation.c:5589-5661 | Only old blocks and blocks of the new extent are covered afterwards, and all of them if the list has room |
| `FreeExtentCaches.FreeExtentCache.Coalesce` | core/VolumeAllocation.c:5609-5640 | One pass merges everything: no entry skipped earlier can touch the grown extent |
| `FreeExtentCaches.CoalesceMerge` | core/VolumeAllocation.c:5609-5640 | Growing the extent by an entry it touches keeps it apart from all entries already passed |
| `FreeExtentCaches.FreeExtentCache.AddToList` | core/VolumeAllocation.c:5393-5452 | The entry goes where the order puts it, and the last entry goes if the list is full |
| `FreeExtentCaches.FreeExtentCache.RemoveFromList` | core/VolumeAllocation.c:5357-5371 | Exactly one entry goes and the rest keep their order |
| `FreeExtentCaches.InsertBest` | core/VolumeAllocation.c:5393-5452 | Inserting into the best entries of a pool gives the best entries of the larger pool |
| `FreeExtentCaches.PiecesCover` | core/VolumeAllocation.c:5469-5565 | The pieces left of the entries cover exactly the blocks outside the range |
| `FreeScans.BitmapScan.FindFreeExtents` | core/VolumeAllocation.c:6099-6203 | Exactly the maximal clear runs of the view, in order, with counts that add up to its clear blocks; each summary bit but the first is set exactly when its bitmap block has no clear block, and the first is never newly set |
| `FreeScans.BitmapScan.Count` | core/VolumeAllocation.c:6045-6072 | The whole length of the run at hand, across reads |
| `FreeScans.BitmapScan.GetMoreBits` | core/VolumeAllocation.c:5757-5894 | The buffer holds the next blocks of the view, cut at the last block |
| `FreeScans.BitCount` | core/VolumeAllocation.c:5899-5998 | The length of the run of set or clear bits, by leading-zero counts of masked quads |
| `FreeScans.BitmapScan.UpdateSummary` | core/VolumeAllocation.c:6001-6036 | Exactly the bits of the run are painted, without the one in which the last free block was seen |
| `FreeScans.SummarySet` | core/VolumeAllocation.c:6001-6036 | Painting a run of set blocks keeps each bit true to its bitmap block so far |
| `FreeScans.SummaryFree` | core/VolumeAllocation.c:6001-6036 | So does painting a run of clear blocks |
| `KeyOrders.FastUnicodeCompare` | core/UnicodeWrappers.c:366-420 | The first difference of the folded names, without their ignorable characters, decides: the smaller character, or the end of a name, comes first |
| `KeyOrders.LexMeans` | core/UnicodeWrappers.c:410-420 | Lexicographic order is decided at the first difference |
| `KeyOrders.FoldMeans` | core/UnicodeWrappers.c:383-407 | A character is folded by the table of its high byte |
| `KeyOrders.IgnorableAnywhere` | core/UnicodeWrappers.c:379-410 | An ignorable character anywhere in a name does not change its order |
| `KeyOrders.UnicodeBinaryCompare` | core/UnicodeWrappers.c:440-482 | The first difference of the names decides, the end of a name coming first |
| `KeyOrders.CompareExtendedCatalogKeys` | core/hfs_catalog.c:3483-3509 | Smaller parents first, then empty names before all others, then the first difference of the folded names decides |
| `KeyOrders.KeyOrderIsTotalPreorder` | core/hfs_catalog.c:3483-3509 | The case-insensitive order is antisymmetric in sign, total and transitive, and its ties are keys that differ only in case and ignorable characters |
| `KeyOrders.ThreadKeyFirst` | core/hfs_catalog.c:3497-3499 | The thread key of a folder is strictly before all its entries and between its neighbours' keys |
| `KeyOrders.BinaryKeyCompare` | core/hfs_catalog.c:3449-3473 | Smaller parents first, then the first difference of the names decides |
| `KeyOrders.BinaryOrderIsTotal` | core/hfs_catalog.c:3449-3473 | The binary order is total: only equal keys tie |
| `Catalogs.Run` | core/hfs_catalog.c:1022-1506 | Over any run of create, rename and delete by descriptors that are up to date, records and threads stay in bijection and an operation that fails changes nothing; every folder hangs below the root folder up to the first delete of a node that is a parent, and not after it |
| `Catalogs.Catalog.Create` | core/hfs_catalog.c:1022-1112 | It succeeds exactly when the name is not empty and neither the ID nor the key is taken; the tree afterwards; a taken name leaves no thread behind; the forest is kept if and only if the parent is a folder |
| `Catalogs.Catalog.Rename` | core/hfs_catalog.c:1130-1412 | Exactly when a move is invalid, when the source is missing and when the target is taken; the tree afterwards, case variants included; the bijection holds if and only if the rename is refused or the descriptor has the ID and the kind of the record, and the forest, for such a descriptor, if and only if the target is in a folder |
| `Catalogs.Catalog.Replace` | core/hfs_catalog.c:1288-1390 | The tree operations amount to one move of record and thread, and a target that is the source itself is no conflict; with an ID that belongs to a target elsewhere, the record of the target ends up in both places |
| `Catalogs.RenameThread` | core/hfs_catalog.c:1245-1252 | The thread written is a file thread for a directory hard link and of the kind of the descriptor otherwise |
| `Catalogs.Catalog.CheckMove` | core/hfs_catalog.c:1174-1210 | The walk up ends, and refuses exactly the root folder and moves of a directory to or below itself |
| `Catalogs.Catalog.Delete` | core/hfs_catalog.c:1423-1506 | Exactly when it is invalid or finds nothing; otherwise the record and the thread of one ID go; the bijection survives if and only if that is the ID of the record, and the forest if and only if, further, nothing has it as its parent |
| `Catalogs.Unpaired` | core/hfs_catalog.c:1456-1498 | A record that goes with the thread of another ID leaves a thread without a record |
| `Catalogs.RenamedUnpaired` | core/hfs_catalog.c:1367-1390 | A thread written with another ID or kind than that of the record names a record that it does not fit |
| `Catalogs.DroppedForest` | core/hfs_catalog.c:1430-1444 | A node may go if and only if it is not the root and nothing has it as its parent |
| `Catalogs.StaleDelete` | core/hfs_catalog.c:1456-1498 | A tree of two files on which a delete by the wrong ID breaks the bijection |
| `Catalogs.StaleRename` | core/hfs_catalog.c:1367-1390 | The same for a rename |
| `Catalogs.RefusedRename` | core/hfs_catalog.c:1315-1340 | A refused rename after which one record is in two places |
| `Catalogs.ParentDeleted` | core/hfs_catalog.c:1433-1444 | A tree on which a delete of a folder leaves a file without its folder |
| `Catalogs.Catalog.CheckLinkAncestry` | core/hfs_catalog.c:1869-1911 | Exactly whether the folder pointed at, or a directory hard link, is the folder itself or an ancestor |
| `Catalogs.Catalog.GetKey` | core/hfs_catalog.c:3628-3669 | The key that the thread of an ID names |
| `Catalogs.MovedForest` | core/hfs_catalog.c:1174-1210 | Moving a node under a folder that is not below it keeps every path to the root |
| `Catalogs.OneRecordPerId` | core/hfs_catalog.c:1045-1093 | No ID has two records |
| `Catalogs.ClassIsTie` | core/hfs_catalog.c:3443-3509 | The classes of the tree are the ties of the key order of the volume |
| `CnidAllocators.CnidAllocator.Acquire` | core/hfs_catalog.c:230-323 | It ends; the ID is the first from the next one on, with one wrap-around, that is not reserved and has no thread, attributes or, once IDs are reused, cnode in memory; no space means that every user ID is in use |
| `CnidAllocators.CnidAllocator.Check` | core/hfs_catalog.c:179-192 | Whether the ID is reserved |
| `CnidAllocators.CnidAllocator.Insert` | core/hfs_catalog.c:195-202 | The reserved IDs gain exactly this one |
| `CnidAllocators.CnidAllocator.Remove` | core/hfs_catalog.c:206-217 | The reserved IDs lose exactly this one |
| `CnidAllocators.RunIds` | core/hfs_catalog.c:179-323 | Over any run, reserved IDs and catalog IDs stay apart and no ID is given out while it is either |
| `CnidAllocators.GivenOnce` | core/hfs_catalog.c:230-323 | An ID given out twice was returned in between |
| `Mangling.CountFilenameExtensionChars` | core/UnicodeWrappers.c:123-162 | The length of the extension if there is one, zero exactly if there is none |
| `Mangling.ExtensionCharMeans` | core/UnicodeWrappers.c:123-162 | The characters of an extension are the letters and the digits |
| `Mangling.GetFilenameExtension` | core/UnicodeWrappers.c:68-116 | The extension with its dot, empty exactly if there is none |
| `Mangling.GetEmbeddedFileID` | core/UnicodeWrappers.c:168-211 | The ID and prefix length of a name that has a marker and two digits before its extension, zero otherwise |
| `Mangling.EmbedsUnique` | core/UnicodeWrappers.c:168-211 | A name embeds one ID only |
| `Mangling.HexStringToInteger` | core/UnicodeWrappers.c:215-241 | The value of the digits modulo 2^32, zero if a character is no digit |
| `Mangling.HexRoundTrip` | core/UnicodeWrappers.c:215-241 | Reading what "%X" prints gives the number back |
| `Mangling.DigitsInOrder` | core/UnicodeWrappers.c:215-241 | The digits are 0 to 9 and A to F, with values in that order |
| `Mangling.ConvertUnicodeToUTF8Mangled` | core/UnicodeWrappers.c:485-508 | The name is an encoded prefix, the ID and the extension of the source, with room for a terminator, and is cut only when ID and extension alone fill the buffer; the length reported is that of the uncut name |
| `Mangling.MangledRoundTrip` | core/UnicodeWrappers.c:485-508 | A mangled name parses back to its ID and prefix length if and only if the ID is at least 16 and the name at least 28 long |
| `Mangling.SameExtension` | core/UnicodeWrappers.c:68-162 | The two extension scanners agree on a source name and its mangled form |
| `Mangling.ParsedReprints` | core/UnicodeWrappers.c:168-241 | A name with an ID of at most eight digits is what mangling prints for what it parses to, if and only if the digits have no leading zero |
| `NodeSwaps.SwapToHost` | core/hfs_endian.c:82-220 | Exactly which nodes are accepted, and that an accepted node has exactly its fields reversed, which keeps what it says |
| `NodeContents.NodeMeansSame` | core/hfs_endian.c:82-711 | A swapped node, read field by field in the other byte order, has the same links, counts, offsets, keys, names, IDs, dates, owners, forks and thread contents, and the same bytes in between |
| `NodeContents.RecordMeansSame` | core/hfs_endian.c:512-711 | The same for one record: folder, file, thread or index entry |
| `NodeSwaps.SwapToDisk` | core/hfs_endian.c:222-388 | The same from memory to disk, for offsets that point between the descriptor and the table, in any order |
| `NodeSwaps.NodeRoundTrip` | core/hfs_endian.c:82-388 | A node accepted in one direction is accepted in the other and comes back to the original bytes |
| `NodeSwaps.SwapThereAndBack` | core/hfs_endian.c:82-388 | A node swapped for memory and back for disk is accepted both ways or refused at first, and its bytes come back |
| `NodeSwaps.NodeKept` | core/hfs_endian.c:82-711 | After a swap the node reads the same in the other direction, field by field |
| `NodeSwaps.SwapRecords` | core/hfs_endian.c:477-711 | All records are swapped, each within its own offsets, or one of them is malformed |
| `NodeSwaps.SwapRecord` | core/hfs_endian.c:477-711 | Exactly which records are accepted, and that every byte changed lies between the record's offset and the next |
| `NodeSwaps.SwapTable` | core/hfs_endian.c:178-212 | The offsets are accepted exactly if even, increasing and inside the node, and all are swapped |
| `NodeSwaps.RecordKept` | core/hfs_endian.c:477-711 | A swapped record is well formed with the same fields in the other direction |
| `NodeSwaps.FlipMore` | core/hfs_endian.c:477-711 | Swaps of fields that do not overlap add up, in any order |
| `CnodeHashes.UniqueById` | core/hfs_chash.c:288-427 | Two hashed nodes with the same file ID are the same node, or the two nodes of an exchange that has written one of its IDs |
| `CnodeHashes.UniqueByHome` | core/hfs_chash.c:448-459 | At most one node was put into the hash by a given ID |
| `CnodeHashes.SleeperHasWaker` | core/hfs_chash.c:315-330 | Whoever sleeps on a node has an owner of it, or a thread about to reclaim it, that is still to wake them |
| `CnodeHashes.EmptyValid` | core/hfs_chash.c:117-123 | An empty hash satisfies the invariant |
| `CnodeRuns.RunValid` | core/hfs_chash.c:140-503 | Over every interleaving in which no thread makes a node for an ID hidden by an exchange in progress: one node per ID in the hash, exactly one owner of a node being allocated or attached to, a waker for every sleeper, and no node in a wrong chain but those being exchanged |
| `CnodeRuns.StepValid` | core/hfs_chash.c:140-503 | A step keeps that if and only if it does not make a node for an ID hidden by an exchange |
| `CnodeRuns.NextValid` | core/hfs_chash.c:140-503 | Every step keeps the invariant if and only if it puts no second node into the hash for an ID |
| `CnodeRuns.MissesExactly` | core/hfs_chash.c:303-309 | A walk fails although the node is in the hash exactly for an overwritten ID between the two writes of an exchange, and for both IDs between the writes and the rehash if they belong to different chains |
| `CnodeRuns.SplitExchange` | core/hfs_vnops.c:2582-2620 | If a lookup for the ID that one node had comes after both writes and before the rehash, the hash ends up with two nodes of that ID if and only if the two IDs belong to different chains |
| `CnodeRuns.EarlyPass` | core/hfs_vnops.c:2518-2620 | If it comes between the two writes, it always does |
| `CnodeRuns.ExchangeExample` | core/hfs_vnops.c:2518-2620 | A run of five states from a hash in order that ends with two nodes of one file ID |
| `CnodeRuns.HeldFromScan` | core/hfs_chash.c:288-427 | In every run, a thread that slept and later holds a node has since walked the chain of an ID, where the node was found under that ID or put by that pass |
| `CnodeRuns.ScanUsesHash` | core/hfs_chash.c:288-427 | A pass yields a node that the hash has under the ID, or a new one; the new one is the only one unless an exchange hides the ID |
| `CnodeRuns.ScanGetsWanted` | core/hfs_chash.c:303-427 | What a pass does, by the flags and vnodes of the node it finds: a busy node is slept on, the data or resource vnode that was wanted is taken if it is there, and else is to be made by a getcnode pass |
| `CnodeRuns.OwnerMakesWanted` | core/hfs_cnode.c:1215-1448 | The owner of a node ends with the vnode it wanted and no other, and with its flags clear |
| `CnodeHashes.CnodeHash.GetCnode` | core/hfs_chash.c:288-427 | One pass over the chain is the scan step |
| `CnodeHashes.CnodeHash.ChashWakeup` | core/hfs_chash.c:430-442 | The flags are cleared and, if the node is waited for, all its sleepers woken |
| `CnodeHashes.CnodeHash.ChashRemove` | core/hfs_chash.c:465-483 | Busy exactly when a vnode is being attached; otherwise the node leaves its chain |
| `CnodeHashes.CnodeHash.ChashAbort` | core/hfs_chash.c:488-503 | The owner's node leaves the hash with its flags cleared and its sleepers woken |
| `CnodeHashes.CnodeHash.ChashRehash` | core/hfs_chash.c:448-459 | The nodes leave the chains they are in and enter those of their file IDs |

## Left out

- Volumes.Volume.FindContig: the journal's answers to the collision loop are a finite list, and the search gives up when it is used up; that the loop ends depends on journal code that is not part of this model.
- NodeSwaps.SwapToDisk: in a leaf or index node the offsets are taken to point between the descriptor and the table, since the source follows them before it checks them; a record laid over the descriptor or the table is not modelled.
- NodeSwaps.SwapToHost: header nodes and `allow_empty_node` are not modelled; swaps of fields that do not overlap are made in a convenient order.
- Catalogs.Catalog.Rename: the full name behind a mangled name is a parameter; the parent that the caller gives for the target folder of a directory is its parent.
- Catalogs.Run: once a delete has left orphans, moves of directories are passed over, because the walk up is only sure to end in a forest.
- VolumeRuns.Run: stops when the free count is behind the bitmap; with a count that is too low, later operations of the source can take its unsigned counter below zero, and that wrap-around is not modelled.
- CnodeRuns.RunValid: says nothing after a node has been made for a hidden ID.
- The buffer cache, device requests, CoreStorage mapping and tracing: plumbing around the modelled logic.
- The journal itself: only the set of blocks awaiting a trim is modelled, and every trim is taken to be accepted.
- Roving allocation pointers, the freed-block count and the metadata zone: hints that do not enter the invariants.
- Volume resizing (`UpdateAllocLimit`, `hfs_rebuild_summary`, the flag that skips the free count, roll-back): they change the invariants on behalf of callers outside this model.
- `hfs_init_summary`: a volume has a summary table from the start or never.
- Identity of reservations: an operation names a reservation by its place in the list rather than by a pointer.
- Contents of the case folding tables: any tables that fold no Latin character to zero.
- UTF-8 encoding and decoding: any encoder that keeps to its room and leaves a byte of it for a terminator.
- The extents and attributes branches of the node swap: the same shape as the catalog branch.
- vnode life cycle and cnode locks around the hash: steps of the environment.
