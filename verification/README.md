# InfiltratorFS, verified

A Dafny model of the parts of InfiltratorFS on which a volume stands or falls, with proofs
that hold for every input, every run and every crash point. `dafny verify dfyconfig.toml`
checks all of it.

| component | modules | main result |
|---|---|---|
| checkpoint discovery and selection | Discovery, Selection | every outcome of a mount, by an if-and-only-if over the disk |
| commit, relocation, crash, repair | Publication, CrashSafety, Healing, CrashRuns | every mount in every history of commits, crashes and repairs finds the right superblock |
| allocation map | AllocationTree, AllocationLoad, Transaction, DirtyClosure, TreeImage, AllocationPublish, AllocationCommit, AllocationTheorem | incremental publication, then load, returns exactly the transaction's bitmap |
| both on one disk | OneDisk, DiskRuns | in every history of commits, crashes and repairs the map under the mounted superblock is exactly the one committed with it |
| resize | ResizePick, Resize | live blocks are conserved, every answer is determined |
| reservations | Arenas, Reservations, ReservationInvariant, ReservationRuns | safety and absence of deadlock at the granularity of single locks and bits |
| shared blocks | SharedRanges, SharedEvents, SharedOwners, SharedIndex, SharedFrees | the index never misses a shared block; accelerated and exact frees agree |
| directories | DirectoryPages, DirectoryStore, DirectoryBuild, DirectoryTree, DirectoryMutate, Directories | the hash tree refines a map from names to entries |
| checksums | ChecksumChain, ChecksumUpdate, ChecksumStore, Checksums, ChecksumAppend | a chain of objects refines a map from blocks to digests |
| indexes | VisitSet, IndexTree, ExtentTree, ReadCache | lookup, listing, cached and plain mapping agree |
| codecs and policies | LocatorCodec, Mirror, Sha256, Security | round trips, replication, streaming, access decisions |

Geometry, Counting and Sorting are shared vocabulary.

What the code cannot decide by itself is a parameter: the graph walk that validates a
superblock, checksums and the compression function of the hash, outcomes of device
operations, random names. In the crash model a write in doubt may be absent, whole or torn.
Checkpoint and locator writes are each flushed before the next, so at most one is in doubt;
tree pages are flushed only once, behind the last of them, so any subset may be.

Code that works by changing fields, arrays or loop variables is modelled by classes, arrays
and loops, each proved against a specification; the reservation protocol is modelled as a
state machine whose steps are single lock operations and single bit accesses.

## Findings

Where the code does not do what its comments or callers suppose, the model follows the code.
Each of the first five has a lemma with a concrete input and a lemma with the exact condition.

- A repair can lose what it repairs: the comment at kernel/infiltratorfs_checkpoint_publish.c:88-90 says that a crash during repair always retains a discoverable graph. `Healing.RepairCanLose` gives a disk on which such a crash leaves nothing that can be found. The selected superblock survives every crash of its repair exactly when block zero already holds it or a locator describes its geometry (`Healing.HealingSafeExactlyWhenAnchored`); where that fails, an older graph is still found exactly when a locator leads to a copy outside block zero (`Healing.NothingLeftExactlyWhen`). After a crashed commit the first condition always holds (`CrashRuns.CutIsGood`).
- Blocks of the last durable checkpoint can be handed out early: deferred frees are applied to the live bitmap (kernel/infiltratorfs_allocation_publish.c:363) before the checkpoint is durable, and a writer outside the transaction may then reserve such a block and stage data in it (kernel/infiltratorfs_rw_data.inc:3040-3050). `ReservationRuns.HandedOutEarly` is such a run, `ReservationRuns.KeptExactlyWhenCareful` the exact condition, `ReservationRuns.TestingFreedSuffices` a test that would rule it out.
- The arena computed for a block is not always the one that holds it (`Arenas.WrongArena`, `Arenas.ShardIsNear`); exclusion between a claim and a search therefore rests on the bitmap lock, as the invariant shows.
- The two sweeps of an arena miss a free run that spans the hint (`Arenas.CanMiss`, `Arenas.MissesOnlyAcross`).
- Recording checksums past the end of what a group has in use gives the skipped blocks a digest nobody recorded, exactly when `ChecksumStore.ExposedExactlyWhen` says. The first write of a file at block 5 does so for blocks 0 to 4 (`ChecksumStore.ExposedAtFive`, reached from kernel/infiltratorfs_rw_data.inc:3460). No code lowers the count of an object, so in objects the kernel wrote that digest is always zero (`ChecksumStore.StaysBlank`, `ChecksumStore.ExposedIsZero`). Appends never do it (`ChecksumAppend.AppendIsExact`).
- A comment that the code has left behind: kernel/infiltratorfs_shared_ownership.c:172-176 says that a clone invalidates the shared-range index. The code adds the owner instead and invalidates only when that fails (kernel/infiltratorfs_defrag.inc:819-831), which is what `SharedIndex.CloneKeepsSafe` is about.

## Model

| member | source | states |
|---|---|---|
| `Discovery.ReadMaps` | kernel/infiltratorfs_checkpoint_discovery.c:105-140 | The three geometry maps are exactly what locator A, locator B and block zero spell out on this disk, and an error is noted exactly when one of the three blocks is unreadable. |
| `Discovery.FilterMaps` | kernel/infiltratorfs_checkpoint_discovery.c:141-156 | Maps of two volumes are refused, and only then; the block-zero map is dropped exactly when it repeats the geometry of a surviving locator. |
| `Discovery.ReadRow` | kernel/infiltratorfs_checkpoint_discovery.c:160-191 | The slots of one map are its three copies in order, each present exactly when intact and describing that geometry; an error is noted exactly when one of the three blocks is unreadable. |
| `Discovery.ReadCopies` | kernel/infiltratorfs_checkpoint_discovery.c:157-192 | Slot 3i+j is copy j of map i for every map used, the slot count ends with the last map used, and all slots past it are empty. |
| `Discovery.ReadCandidates` | kernel/infiltratorfs_checkpoint_discovery.c:88-199 | Discovery end to end, each outcome by an if-and-only-if: the I/O failure, the corruption failure, and otherwise the slots in the order that decides ties, holding exactly the superblocks that some surviving map leads to. |
| `Discovery.SlotsAreDiscoverable` | kernel/infiltratorfs_checkpoint_discovery.c:151-192 | Dropping the repeated map loses nothing: a superblock is in a slot if and only if some surviving map leads to an intact copy of it. |
| `Discovery.SameCopies` | kernel/infiltratorfs_checkpoint_discovery.c:178-190 | Two maps of one geometry and volume lead to the same copies. |
| `Selection.Deep` | kernel/infiltratorfs_core.c:1451-1458 | Deep validation is asked for exactly when any two slots differ or one is empty. |
| `Selection.Best` | kernel/infiltratorfs_core.c:1462-1476 | The next candidate is untried, and every untried one is no newer, or as new and in a later slot. |
| `Selection.SelectCheckpoint` | kernel/infiltratorfs_core.c:1451-1500 | The choice is the first slot, in the order of generation and then slot number, whose graph is not damaged; it stops exactly on a first slot that faults, fails exactly when all are damaged, and asks for repair exactly when some slot differs from the choice. |
| `Selection.FirstIsUnique` | kernel/infiltratorfs_core.c:1451-1499 | At most one slot can be the first that is not damaged. |
| `Selection.ChoiceAt` | kernel/infiltratorfs_core.c:1451-1499 | The slots and the graph walk determine the choice. |
| `Selection.TopWins` | kernel/infiltratorfs_core.c:1451-1499 | A sound superblock is chosen whenever every other candidate is older or damaged. |
| `Selection.Recover` | kernel/infiltratorfs_core.c:1434-1504 | Discovery and selection together: what a mount of any disk comes up with, as a relation that has one outcome for each disk. |
| `Selection.FoundAll` | kernel/infiltratorfs_core.c:1434-1504 | The slots that selection sees hold exactly the discoverable superblocks. |
| `Selection.NewestSoundIsMounted` | kernel/infiltratorfs_core.c:1434-1504 | A discoverable sound superblock is mounted when all other discoverable ones are older or damaged. |
| `Publication.Device.constructor` | kernel/infiltratorfs_checkpoint_publish.c:13-41 | A device starts with nothing in doubt and a history of one state. |
| `Publication.Device.Issue` | kernel/infiltratorfs_checkpoint_publish.c:13-35 | A write leaves the media alone and puts at most this write in doubt, whether or not it reports success. |
| `Publication.Device.Flush` | kernel/infiltratorfs_checkpoint_publish.c:37-41 | A successful barrier makes the write in doubt durable; a failed one leaves it in doubt. |
| `Publication.Stage` | include/infilfs/checkpoint_protocol.h:37-42 | Write then barrier: every state passed through is at the same step of the protocol, except the last one of a successful stage, which is one further. |
| `Publication.Publish` | include/infilfs/checkpoint_protocol.h:19-55 | The history of a commit: before the state in which `committed` is raised every state is short of the commit point, that state is exactly at it, and none after it falls behind; success means all writes are durable in order. |
| `CrashSafety.OrdinaryCommitSurvives` | include/infilfs/checkpoint_protocol.h:36-47 | A crash at any step of a commit in place, whatever becomes of the write in doubt, mounts the old or the new superblock, and the new one from the commit point on. |
| `CrashSafety.RelocationSurvives` | include/infilfs/checkpoint_protocol.h:26-54 | The same for a commit that moves the copies, even if either locator was unreadable beforehand. |
| `CrashSafety.RelocationImage` | include/infilfs/checkpoint_protocol.h:26-54 | While both geometries are on the disk, nothing can be found but the two superblocks and older ones; block zero leads to the old one, locator A to a durable new one. |
| `CrashSafety.NewestIsFresh` | kernel/infiltratorfs_resize.c:421-430 | From the invariant that nothing on the disk is newer than the superblock in force it follows that whatever lies where a relocation puts its copies is older. |
| `CrashSafety.CommitKeepsNewest` | include/infilfs/checkpoint_protocol.h:19-55 | Every commit keeps that invariant for the superblock it commits. |
| `CrashSafety.CommitHeals` | include/infilfs/checkpoint_protocol.h:19-55 | A commit that runs to its end leaves all copies and both locators agreeing on the new superblock. |
| `CrashSafety.Commit` | kernel/infiltratorfs_checkpoint_publish.c:79-86 | The method on the device: in every state of its history each crash image mounts the old or the new superblock, and the new one in and after the state at which `committed` was raised. |
| `Healing.HealItem` | kernel/infiltratorfs_checkpoint_publish.c:106-143 | One copy or locator is rewritten durably exactly when it is not right already. |
| `Healing.Heal` | kernel/infiltratorfs_checkpoint_publish.c:91-153 | Repair writes exactly the items that were wrong, copies before locators; success leaves everything agreeing, failure refuses further writes. |
| `Healing.HealedAtEnd` | kernel/infiltratorfs_checkpoint_publish.c:106-143 | After all items, the three copies and both locators agree on the selected superblock. |
| `Healing.NothingNew` | kernel/infiltratorfs_checkpoint_publish.c:91-153 | A crash during repair brings no superblock to light that the mount did not see. |
| `Healing.HealingSurvives` | kernel/infiltratorfs_checkpoint_publish.c:88-143 | If block zero holds the selected superblock or a locator describes its geometry, a crash anywhere in the repair mounts it again. |
| `Healing.HealingSafeExactlyWhenAnchored` | kernel/infiltratorfs_checkpoint_publish.c:88-143 | That condition is exact: some crash of the repair loses the selected superblock if and only if it does not hold. |
| `Healing.NothingLeftExactlyWhen` | kernel/infiltratorfs_checkpoint_publish.c:88-143 | Some crash of the repair leaves a disk on which no superblock at all can be found if and only if, besides, no locator leads to a superblock outside block zero. |
| `Healing.RepairCanLose` | kernel/infiltratorfs_checkpoint_publish.c:88-90 | A disk on which recovery selects generation 2, and a crash in its repair leaves a disk on which neither generation 2 nor generation 1 can be found, against the comment that a discoverable graph is always retained. |
| `CrashRuns.ImageNewest` | include/infilfs/checkpoint_protocol.h:19-55 | After a crash nothing on the disk is newer than the new superblock, and if that is not on the disk, nothing is newer than the old one. |
| `CrashRuns.CutIsGood` | include/infilfs/checkpoint_protocol.h:19-55 | A commit cut short anywhere mounts what it must and leaves a disk whose repair may itself be cut short without loss. |
| `CrashRuns.CutRepairIsGood` | kernel/infiltratorfs_checkpoint_publish.c:91-153 | A repair cut short anywhere comes back to the superblock it was repairing and can be repeated. |
| `CrashRuns.EveryHistoryIsGood` | kernel/infiltratorfs_checkpoint_publish.c:79-153 | The volume invariant holds after every history of completed commits, crashed commits, repairs and crashed repairs. |
| `CrashRuns.EveryMountIsRight` | kernel/infiltratorfs_checkpoint_publish.c:79-153 | In every such history, of any length and order, each mount finds the superblock in force or the one whose commit was cut short, and the latter once it was committed. |
| `Geometry.CountsFitOneRoot` | kernel/infiltratorfs_allocation_map.c:80-105 | Every volume size the format admits has page counts that one root page can address. |
| `AllocationTree.LoadLeaves` | kernel/infiltratorfs_allocation_map.c:336-365 | The leaves below one level-one page load exactly when each of them is valid, and yield its span of the bitmap. |
| `AllocationTree.LoadTree` | kernel/infiltratorfs_allocation_map.c:282-373 | The walk succeeds exactly when every page on every path is valid, and returns the layout and the bitmap the pages spell out. |
| `AllocationLoad.CountFree` | kernel/infiltratorfs_allocation_map.c:136-155 | The word-at-a-time count equals the number of clear bits. |
| `AllocationLoad.CheckPlaced` | kernel/infiltratorfs_allocation_map.c:375-399 | The sorted scan accepts exactly the page lists without repetition that avoid copies, locators and block zero. |
| `AllocationLoad.CheckSet` | kernel/infiltratorfs_allocation_map.c:412-436 | All listed blocks are allocated. |
| `AllocationLoad.Load` | kernel/infiltratorfs_allocation_map.c:215-464 | The load returns the layout and bitmap of the tree, and fails exactly when a page is bad or one of the later tests fails. |
| `AllocationLoad.TreeIsUnique` | kernel/infiltratorfs_allocation_map.c:215-464 | The pages determine layout and bitmap. |
| `Transaction.Tx.FindFree` | kernel/infiltratorfs_rw_legacy.inc:1100-1131 | Finds a block that is free and not reserved, and fails exactly when there is none. |
| `Transaction.Tx.Alloc` | kernel/infiltratorfs_rw_legacy.inc:1073-1143 | Takes one such block, marks it and journals it; it fails, changing nothing, exactly when no credit is left or every block is set or reserved. |
| `Transaction.Tx.DeferFree` | kernel/infiltratorfs_rw_legacy.inc:1026-1065 | The deferred set grows by exactly the given range, however the records are joined; a range that leaves the volume is refused. |
| `Transaction.Tx.ApplyDeferred` | kernel/infiltratorfs_rw_legacy.inc:1147-1237 | Exactly the deferred blocks are cleared, except copies, locators and snapshot blocks, and the free count stays exact. |
| `DirtyClosure.MarkRange` | kernel/infiltratorfs_allocation_publish.c:9-28 | Exactly the leaves that the clipped range touches become dirty. |
| `DirtyClosure.MarkTx` | kernel/infiltratorfs_allocation_publish.c:30-44 | Exactly the leaves that own a claimed or deferred block become dirty. |
| `DirtyClosure.LeastIsClosed` | kernel/infiltratorfs_allocation_publish.c:46-134 | What all closed sets of dirty flags above given ones have in common is closed itself. |
| `DirtyClosure.MarkParents` | kernel/infiltratorfs_allocation_publish.c:46-134 | Parents of dirty pages become dirty and nothing outside any given closed set; the result says whether anything changed. |
| `DirtyClosure.MarkOwners` | kernel/infiltratorfs_allocation_publish.c:46-134 | Leaves owning the blocks of dirty pages become dirty, within any given closed set, also when both arrays are one. |
| `DirtyClosure.CloseDirty` | kernel/infiltratorfs_allocation_publish.c:46-134 | The passes end in the least closed set of dirty flags above the initial one. |
| `AllocationPublish.TakeBlocks` | kernel/infiltratorfs_allocation_publish.c:264-269 | The blocks taken are distinct, were free, were not reserved, and are journalled; fewer than asked are taken only when the volume is full. |
| `AllocationPublish.ReservePages` | kernel/infiltratorfs_allocation_publish.c:238-294 | Reservation and closure reach a fixed point: one block is held for every dirty page and the root, taking them has made no further leaf dirty, and no smaller closed set covers what the transaction claimed and will free; it fails only when the volume is full. |
| `AllocationPublish.AssignPages` | kernel/infiltratorfs_allocation_publish.c:305-330 | Dirty pages get the held blocks in order, clean pages stay, and every held block is used. |
| `AllocationPublish.TakenAreUsed` | kernel/infiltratorfs_allocation_publish.c:305-330 | Every held block ends up holding a page. |
| `AllocationPublish.RetirePages` | kernel/infiltratorfs_allocation_publish.c:332-357 | Exactly the old blocks of dirty pages and of the root are deferred. |
| `AllocationCommit.WriteTree` | kernel/infiltratorfs_allocation_publish.c:375-456 | Exactly the dirty pages and the root are written, with their slice of the bitmap or their pointers. |
| `AllocationCommit.RewrittenIsWritten` | kernel/infiltratorfs_allocation_publish.c:182-496 | Incremental publication refines a full rewrite: afterwards the pages are, one by one, the tree of the new bitmap, although clean pages were left alone. |
| `TreeImage.WrittenLoads` | kernel/infiltratorfs_allocation_map.c:215-464 | A fully written tree loads to the layout and bitmap it was written from. |
| `TreeImage.LoadedIsWritten` | kernel/infiltratorfs_allocation_map.c:215-464 | What loads is a fully written tree, so writing and loading are inverse. |
| `AllocationTheorem.TakenAreFree` | kernel/infiltratorfs_allocation_publish.c:238-294 | A new page never lies on a block that the committed map uses, and stays allocated. |
| `AllocationTheorem.OnlyDirtyLeavesChange` | kernel/infiltratorfs_allocation_publish.c:238-374 | Every bit that publication changes lies in a leaf that is rewritten. |
| `AllocationTheorem.NewPagesPlaced` | kernel/infiltratorfs_allocation_publish.c:305-366 | No page of the new tree overlaps another page, a copy or a locator. |
| `AllocationTheorem.BitmapPublished` | kernel/infiltratorfs_allocation_publish.c:238-374 | The final bitmap: exactly the pages of the new tree, and of the transaction's blocks those that are neither old pages nor to be freed, unless they are copies, locators or snapshot blocks. |
| `AllocationTheorem.Publish` | kernel/infiltratorfs_allocation_publish.c:182-496 | Publication never reports corruption, and runs out of space only when the volume is full; on success the new superblock is valid, its tree is the transaction's final bitmap, that bitmap is exactly the published one, and the committed superblock's own tree still loads. |
| `AllocationTheorem.OldTreeStays` | kernel/infiltratorfs_allocation_publish.c:182-496 | As long as its own pages are untouched, a tree keeps loading to the same map. |
| `AllocationTheorem.PublishAndLoad` | kernel/infiltratorfs_allocation_publish.c:182-496 | Publishing and then loading returns exactly the layout just built, the transaction's final bitmap and its free count, unless the volume is full. |
| `OneDisk.TreeCrashIsRight` | kernel/infiltratorfs_rw_legacy.inc:1323-1362 | Tree pages and checkpoint copies on one disk: a crash among the unflushed page writes, any subset of them done or torn, mounts the old superblock and its map is exactly the old one. |
| `OneDisk.CommitCrashIsRight` | kernel/infiltratorfs_rw_legacy.inc:1350-1390 | A crash among the checkpoint writes mounts the old or the new superblock, and the map under it on that disk is exactly its own bitmap. |
| `OneDisk.CommitTransaction` | kernel/infiltratorfs_rw_legacy.inc:1307-1407 | Publication and commit composed: unless the volume is full, every crash up to the last checkpoint write is safe in both senses, and a complete commit leaves the state from which the next one can start. |
| `OneDisk.CommitResize` | kernel/infiltratorfs_resize.c:249-430 | Resize and relocating commit composed: every crash between the first new page and the last locator write is safe in both senses, and a complete one leaves the state from which the next commit can start. |
| `OneDisk.ArrangedSettles` | kernel/infiltratorfs_rw_legacy.inc:1307-1407 | When all writes of a commit are durable, copies, locators and tree on that disk are those of the new superblock and its map. |
| `DiskRuns.EventIsGood` | kernel/infiltratorfs_rw_legacy.inc:1307-1407 | Each event of a history, a commit cut short among its page writes or its checkpoint writes, a repair, or a repair cut short, is mounted right and leaves the disk good. |
| `DiskRuns.EveryHistoryIsGood` | kernel/infiltratorfs_checkpoint_publish.c:79-153 | After every history the disk holds, under the superblock in force, exactly the map that was committed with it. |
| `DiskRuns.EveryMapIsRight` | kernel/infiltratorfs_checkpoint_publish.c:79-153 | In every history of complete commits, crashed commits, repairs and crashed repairs on one disk, each mount finds the superblock in force or the one being committed, and the allocation map under it on the disk the crash left is exactly its own. |
| `ResizePick.PickNear` | kernel/infiltratorfs_resize.c:39-69 | Picks the free block nearest to the wish, the lower of two equally near, and fails only when all are taken. |
| `ResizePick.PickReverse` | kernel/infiltratorfs_resize.c:71-88 | Picks the highest free block not above the cursor. |
| `ResizePick.PickMany` | kernel/infiltratorfs_resize.c:106-155 | Picks as many distinct free blocks as asked, and fails exactly when the bitmap fills up first. |
| `ResizePick.AllocateLayout` | kernel/infiltratorfs_resize.c:106-155 | All pages of the new tree get distinct free blocks, or every block is taken. |
| `Resize.CheckShrink` | kernel/infiltratorfs_resize.c:297-306 | A shrink is refused exactly when a block that cannot move lies beyond the new end. |
| `Resize.Pick` | kernel/infiltratorfs_resize.c:327-351 | The outcome follows from the number of free blocks: too few for the two copies, a size beyond the format, too few for the tree, or success with distinct free blocks. |
| `Resize.Plan` | kernel/infiltratorfs_resize.c:308-371 | A plan exists exactly when picking succeeds; its bitmap is the live blocks, block zero and the picks, nothing else. |
| `Resize.Conservation` | kernel/infiltratorfs_resize.c:308-371 | No live block is lost and none is invented; picks were free and are not what moves. |
| `Resize.WriteNew` | kernel/infiltratorfs_resize.c:157-235 | The new tree loads under the new superblock, the old one still loads under the old. |
| `Resize.Prepare` | kernel/infiltratorfs_resize.c:249-412 | The resize up to the commit: the answer is a function of the request and the volume, each refusal in the order in which the reasons are tested; on success a valid newer superblock in a fresh place whose map is exactly the conserved one. |
| `SharedRanges.CountsDetermineRanges` | kernel/infiltratorfs_shared_ownership.c:20-57 | Two canonical range lists with the same counts are the same list. |
| `SharedRanges.Append` | kernel/infiltratorfs_shared_ownership.c:20-57 | Accepts exactly ordered non-empty ranges of count two and more, stays canonical, and changes the count in that range only. |
| `SharedRanges.MaybeShared` | kernel/infiltratorfs_shared_ownership.c:384-402 | The binary search says yes exactly when some block of the range has a count. |
| `SharedEvents.FileEvents` | kernel/infiltratorfs_shared_ownership.c:257-280 | The events of a file raise and lower the running sum exactly at its extents, and it fails exactly on a malformed extent. |
| `SharedEvents.CollectEvents` | kernel/infiltratorfs_shared_ownership.c:244-284 | The events of all files tally with all their extents. |
| `SharedEvents.DepthPermuted` | kernel/infiltratorfs_shared_ownership.c:185-195 | Sorting the events does not change the depth at any block. |
| `SharedEvents.Batch` | kernel/infiltratorfs_shared_ownership.c:317-320 | Consumes exactly the events at one position and sums them. |
| `SharedEvents.Sweep` | kernel/infiltratorfs_shared_ownership.c:295-336 | The sweep yields the canonical list whose count at every block is the number of extents over it when that is at least two; it overflows only if some count exceeds 32 bits. |
| `SharedOwners.OwnedRanges` | kernel/infiltratorfs_shared_ownership.c:457-515 | Separated ranges covering exactly the blocks a file owns. |
| `SharedOwners.Merge` | kernel/infiltratorfs_shared_ownership.c:523-654 | Adding an owner raises the number of owners by one on exactly its blocks, a block not in the list counting as owned once, and fails exactly when a count would overflow 32 bits. |
| `SharedOwners.SubtractFrom` | kernel/infiltratorfs_shared_ownership.c:711-760 | What dropping an owner leaves of one shared range. |
| `SharedOwners.Subtract` | kernel/infiltratorfs_shared_ownership.c:663-773 | Dropping an owner lowers the count by one on exactly its blocks; counts below two disappear. |
| `SharedOwners.DropUndoesAdd` | kernel/infiltratorfs_shared_ownership.c:523-773 | Dropping the owner just added restores the very same list. |
| `SharedIndex.Index.Build` | kernel/infiltratorfs_shared_ownership.c:223-353 | The rebuilt index counts exactly the owners of every block over all live files, and an existing valid index is kept. |
| `SharedIndex.Index.AddOwner` | kernel/infiltratorfs_shared_ownership.c:523-654 | On success the index has one more owner on the file's blocks, on failure it is unchanged. |
| `SharedIndex.Index.DropOwner` | kernel/infiltratorfs_shared_ownership.c:663-773 | On success the index has one owner fewer, and it fails only on malformed extents, unchanged. |
| `SharedIndex.CloneKeepsSafe` | kernel/infiltratorfs_defrag.inc:819-831 | A clone keeps every block with two owners in the index. |
| `SharedIndex.UnlinkKeepsSafe` | kernel/infiltratorfs_shared_ownership.c:170-174 | An unlink keeps it so, although counts may end up too high. |
| `SharedIndex.RewriteKeepsSafe` | kernel/infiltratorfs_shared_ownership.c:170-174 | A copy-on-write rewrite keeps it so. |
| `SharedIndex.RebuildIsSafe` | kernel/infiltratorfs_shared_ownership.c:223-353 | A rebuild establishes it. |
| `SharedIndex.RunIsSafe` | kernel/infiltratorfs_shared_ownership.c:160-178 | It holds in every state of every run of clones, unlinks, rewrites, rebuilds and invalidations. |
| `SharedIndex.NeverMissed` | kernel/infiltratorfs_shared_ownership.c:160-178 | So a valid index never misses a block that two live files own. |
| `SharedFrees.ScanFile` | kernel/infiltratorfs_shared_ownership.c:430-449 | One file's extents extend the cover from the cursor and pull in the next start exactly as far as they reach. |
| `SharedFrees.OtherCover` | kernel/infiltratorfs_shared_ownership.c:404-454 | The scan over all other files returns how far others cover from the cursor, and where they begin next. |
| `SharedFrees.FreeExactly` | kernel/infiltratorfs_rw_namespace.inc:1265-1283 | The exact walk frees exactly the blocks of the run that no other file refers to. |
| `SharedFrees.FreeUnsharedRun` | kernel/infiltratorfs_rw_namespace.inc:1244-1284 | The accelerated free, index or not, frees exactly the same blocks as the exact walk. |
| `DirectoryPages.NameEqual` | kernel/infiltratorfs_name_policy.c:14-29 | The comparison agrees with equality of the folded names. |
| `DirectoryPages.InItsSlot` | kernel/infiltratorfs_directory_tree.c:143-226 | An entry is below a branch if and only if it is below the slot its digest names. |
| `DirectoryPages.NoTwins` | kernel/infiltratorfs_directory_tree.c:340-388 | No two entries of a directory have the same name. |
| `DirectoryPages.NeverEmpty` | kernel/infiltratorfs_directory_tree.c:640-726 | A subtree has no entries exactly when it is the null block. |
| `DirectoryPages.Frame` | kernel/infiltratorfs_directory_tree.c:143-226 | A subtree depends on its own blocks only. |
| `DirectoryStore.Store.Replace` | kernel/infiltratorfs_rw_data.inc:232-260 | A page owned by the transaction is replaced in place after saving it once; any other gets a new block and the old one is retired. |
| `DirectoryStore.StepsTwice` | kernel/infiltratorfs_rw_data.inc:197-260 | Permitted changes compose. |
| `DirectoryBuild.Build` | kernel/infiltratorfs_directory_tree.c:390-515 | The subtree built holds exactly the given entries, is well formed, and uses exactly the blocks it allocated; it runs out of space only when the volume is full or the names of one digest do not fit into one page. |
| `DirectoryTree.FindIn` | kernel/infiltratorfs_directory_tree.c:98-141 | The leaf search finds the name exactly when it is there. |
| `DirectoryTree.MutateLeaf` | kernel/infiltratorfs_directory_tree.c:522-640 | Adding or removing in a leaf, with splitting and disappearing, changes the set of entries by exactly that one; refusals change nothing. |
| `DirectoryMutate.Mutate` | kernel/infiltratorfs_directory_tree.c:522-726 | The same for a whole subtree: the new subtree is well formed, its entries are the old ones with the one change, retired and new blocks account for the difference. |
| `Directories.Lookup` | kernel/infiltratorfs_directory_tree.c:143-226 | The loop finds an entry of that name exactly when the directory has one. |
| `Directories.RootIffCount` | kernel/infiltratorfs_directory_tree.c:734-891 | The directory has a root block exactly when its count is not zero. |
| `Directories.OneFewer` | kernel/infiltratorfs_directory_tree.c:522-726 | Removing a name that is there removes exactly one entry. |
| `Directories.Apply` | kernel/infiltratorfs_directory_tree.c:734-891 | One operation keeps the directory well formed and its count exact. |
| `Directories.Update` | kernel/infiltratorfs_directory_tree.c:734-891 | Up to two removals and an addition as one map update: the entries afterwards are exactly the old ones without the removed names plus the new entry, the count is exact, blocks are accounted for, and each refusal has its cause, lack of space included. |
| `Directories.OnlyThatName` | kernel/infiltratorfs_directory_tree.c:522-726 | Lookups of all other names are unaffected. |
| `Directories.UndoRestores` | kernel/infiltratorfs_rw_data.inc:386-399 | Writing the saved pages back restores every block that was in use, however much was done in between. |
| `ChecksumChain.Collect` | kernel/infiltratorfs_checksum_store.c:305-395 | The walk returns the chain exactly when there is one of bounded length. |
| `ChecksumChain.InsertKeeps` | kernel/infiltratorfs_checksum_store.c:397-429 | Inserting a node keeps the staged chain ordered and linked. |
| `ChecksumStore.WroteDigests` | kernel/infiltratorfs_checksum_store.c:879-954 | After the rewrite every block has exactly the digest it should: the given one in the range, the slot content where a gap was exposed, the old one elsewhere. |
| `ChecksumStore.ExposedExactlyWhen` | kernel/infiltratorfs_checksum_store.c:503-513 | A block gets a digest nobody asked for exactly when the range starts past the end of what its first group has in use. |
| `ChecksumStore.ExposedAtFive` | kernel/infiltratorfs_rw_data.inc:3445-3464 | The first digests of a file, for block 5, give blocks 0 to 4 a digest too, which is zero. |
| `ChecksumStore.StaysBlank` | kernel/infiltratorfs_checksum_store.c:503-513 | The unused slots of an object stay zero, because its count never shrinks. |
| `ChecksumStore.ExposedIsZero` | kernel/infiltratorfs_checksum_store.c:503-513 | So a digest that nobody asked for is zero in every object written this way. |
| `Checksums.Tail` | kernel/infiltratorfs_checksum_store.c:174-259 | Returns the last object of the chain. |
| `Checksums.FindGroup` | kernel/infiltratorfs_checksum_store.c:74-172 | On a good chain, returns the object of a group and the one before it exactly when the group has an object. |
| `Checksums.UpdateExisting` | kernel/infiltratorfs_checksum_store.c:437-545 | The quick way for a range inside one existing group has the effect of the general update; it says missing exactly when the group has no object, and no space exactly when the list of changes is full. |
| `Checksums.SetRange` | kernel/infiltratorfs_checksum_store.c:812-968 | For any range: the new chain is well formed, records exactly those digests, leaves all other objects alone, and keeps unused slots zero; it fails for space exactly when the objects to be written, one for each group of the range and one whose link changes, outnumber the room in the list of changes. |
| `ChecksumAppend.AppendTail` | kernel/infiltratorfs_checksum_store.c:547-810 | Appending has the effect of the general update; it is refused exactly when the range does not continue the recorded digests, and fails for space exactly when the objects to be written outnumber the room. |
| `ChecksumAppend.AppendIsExact` | kernel/infiltratorfs_checksum_store.c:547-810 | An append records the given digests and changes nothing else. |
| `ChecksumAppend.AppendBothWays` | kernel/infiltratorfs_checksum_store.c:547-968 | Run on one chain, append and general update end alike and record the same digest for every block. |
| `Arenas.ArenasCover` | kernel/infiltratorfs_parallel_alloc.c:46-57 | The arenas follow one another from block 1 to the end of the volume. |
| `Arenas.OneArena` | kernel/infiltratorfs_parallel_alloc.c:46-57 | Every allocatable block lies in exactly one arena. |
| `Arenas.ShardIsNear` | kernel/infiltratorfs_parallel_alloc.c:28-57 | The arena computed for a block holds it or is the one before, and holds it exactly when the block is past the unrounded boundary. |
| `Arenas.WrongArena` | kernel/infiltratorfs_parallel_alloc.c:28-57 | Block 64 of a volume of 66 blocks is in arena 63, and the code computes 62. |
| `Arenas.ShardsInOrder` | kernel/infiltratorfs_parallel_alloc.c:77-97 | The arenas computed for a run are in order, so the locks of a claim are taken in one direction. |
| `Arenas.FirstBusy` | kernel/infiltratorfs_parallel_alloc.c:331-341 | The first unavailable block of a run, or its end. |
| `Arenas.Sweep` | kernel/infiltratorfs_parallel_alloc.c:446-483 | Jumping past a busy block finds exactly what testing every start would find. |
| `Arenas.Search` | kernel/infiltratorfs_parallel_alloc.c:446-483 | Both sweeps together find a run exactly when one lies wholly before or wholly from the hint. |
| `Arenas.MissesOnlyAcross` | kernel/infiltratorfs_parallel_alloc.c:446-483 | A free run of the arena is missed exactly when every such run spans the hint. |
| `Arenas.CanMiss` | kernel/infiltratorfs_parallel_alloc.c:446-483 | Such an arena exists. |
| `ReservationInvariant.AloneInArena` | kernel/infiltratorfs_parallel_alloc.c:426-474 | A writer that tests or sets bits is alone in its arena, by its spin lock and the disjointness of arenas. |
| `ReservationInvariant.WriterLocks` | kernel/infiltratorfs_parallel_alloc.c:426-505 | Every step of a writer keeps each lock held by exactly whom the program says. |
| `ReservationInvariant.TxLocksKept` | kernel/infiltratorfs_parallel_alloc.c:277-307 | So does every step of a claim or a free. |
| `ReservationInvariant.WriterSound` | kernel/infiltratorfs_parallel_alloc.c:431-477 | What a search has tested stays true between test and set, whatever other writers do one bit at a time. |
| `ReservationInvariant.TxSound` | kernel/infiltratorfs_parallel_alloc.c:279-307 | And whatever the transaction does, because nobody tests while it writes the bitmap. |
| `ReservationInvariant.StepKeepsInv` | kernel/infiltratorfs_parallel_alloc.c:254-527 | Every single step of every writer and of the transaction keeps the whole invariant. |
| `ReservationRuns.RunKeepsInv` | kernel/infiltratorfs_parallel_alloc.c:254-527 | It holds in every reachable state of every interleaving. |
| `ReservationRuns.ReservationsAreApart` | kernel/infiltratorfs_parallel_alloc.c:377-489 | Two writers never account for one reservation bit, and no reserved block is allocated. |
| `ReservationRuns.SearchesAreApart` | kernel/infiltratorfs_parallel_alloc.c:446-474 | Two searches in progress never work on a common block. |
| `ReservationRuns.ChargeCoversBits` | kernel/infiltratorfs_parallel_alloc.c:396-408 | The charged counter is never below the number of reserved bits, and equals it whenever no call is in progress. |
| `ReservationRuns.HeldRunIsConsumable` | kernel/infiltratorfs_parallel_alloc.c:511-527 | An active reservation can always be claimed: the entry tests admit it and the scan never finds a block of it unfit. |
| `ReservationRuns.NeverStuck` | kernel/infiltratorfs_parallel_alloc.c:77-97 | No reachable state is a deadlock: while any lock is held, someone who holds or collects locks can take a step. |
| `ReservationRuns.KeptExactlyWhenCareful` | kernel/infiltratorfs_rw_legacy.inc:1147-1218 | No block of the last durable checkpoint is handed out in a run if and only if no search picks a block freed by a publication that is not durable yet. |
| `ReservationRuns.HandedOutEarly` | kernel/infiltratorfs_allocation_publish.c:363-366 | A run in which one is handed out. |
| `ReservationRuns.TestingFreedSuffices` | kernel/infiltratorfs_parallel_alloc.c:331-341 | If the search tested for freed blocks as well, none would be handed out in any run. |
| `VisitSet.Probe` | kernel/infiltratorfs_core.c:325-336 | Linear probing ends at the key, or at the empty place where it belongs when the key is absent. |
| `VisitSet.Set.Grow` | kernel/infiltratorfs_core.c:279-309 | Growing keeps the set of blocks and leaves the table less than half full. |
| `VisitSet.Set.Claim` | kernel/infiltratorfs_core.c:311-337 | Succeeds exactly for a block not claimed before, and adds it. |
| `VisitSet.Set.Contains` | kernel/infiltratorfs_core.c:339-355 | Says whether the block was claimed. |
| `IndexTree.Lookup` | kernel/infiltratorfs_index_tree.c:59-137 | The loop computes the answer of the recursive descent over any graph of pages. |
| `IndexTree.Snapshot` | kernel/infiltratorfs_index_tree.c:163-264 | A listed subtree visits every block once and agrees with lookups on every id below its prefix; it can be listed exactly when its pages and entries are sound, form a tree apart from what was visited before, and fit. |
| `IndexTree.SnapshotAll` | kernel/infiltratorfs_index_tree.c:266-306 | The listing succeeds exactly when every page and entry is sound, no page is reached along two ways, and the entries are as many as announced; it is then the entries in order, has no id twice, and agrees with `Lookup` on every possible id. |
| `ExtentTree.Levels` | kernel/infiltratorfs_extent_tree.c:8-22 | The least number of levels that is enough, or none beyond the limit. |
| `ExtentTree.Build` | kernel/infiltratorfs_extent_tree.c:66-159 | The tree has that many levels, its leaves are the list, and exactly its nodes were allocated; it runs out of space only when the volume is full. |
| `ExtentTree.Resolve` | kernel/infiltratorfs_extent_tree.c:303-375 | Descending by base-502 digits reaches the page at the index, and an index past the end is refused. |
| `ExtentTree.BuildAndResolve` | kernel/infiltratorfs_extent_tree.c:66-375 | For every page list the format admits and every index: building the tree and resolving gives the page at that index. |
| `ExtentTree.DeferNodes` | kernel/infiltratorfs_extent_tree.c:161-194 | A node and everything below it is given up, each block once. |
| `ExtentTree.DeferAll` | kernel/infiltratorfs_extent_tree.c:196-239 | Every page and every node is given up exactly once. |
| `ExtentTree.BuildAndFree` | kernel/infiltratorfs_extent_tree.c:66-239 | Giving up a tree frees the pages of the list and exactly the blocks that building it allocated. |
| `ReadCache.Scan` | kernel/infiltratorfs_core.c:1738-1771 | The plain scan returns the first extent over the block. |
| `ReadCache.PageDecides` | kernel/infiltratorfs_read_cache.c:179-299 | The page whose span holds the block gives the answer of the whole list. |
| `ReadCache.NoPage` | kernel/infiltratorfs_read_cache.c:179-299 | Without such a page the whole list has no answer. |
| `ReadCache.SearchPage` | kernel/infiltratorfs_read_cache.c:258-298 | Binary search in an ordered page agrees with the scan. |
| `ReadCache.Reader.Seek` | kernel/infiltratorfs_read_cache.c:206-256 | Binary search over pages finds the page that spans the block exactly when there is one. |
| `ReadCache.Reader.Map` | kernel/infiltratorfs_read_cache.c:179-299 | Whatever calls came before and whatever page is cached, the answer is that of the plain scan. |
| `LocatorCodec.HasUuid` | kernel/infiltratorfs_locator_format.c:23-26 | The loop over the bytes finds an identifier exactly when its number is not zero. |
| `LocatorCodec.RoundTrip` | kernel/infiltratorfs_locator_format.c:40-110 | Every locator the writer accepts decodes to itself. |
| `LocatorCodec.DecodeIsCanonical` | kernel/infiltratorfs_locator_format.c:40-77 | An accepted block is, byte for byte, the encoding of what it decodes to. |
| `LocatorCodec.DecodesExactlyEncodings` | kernel/infiltratorfs_locator_format.c:40-110 | Blocks that decode and locators that fit match one to one. |
| `LocatorCodec.PlanInitial` | src/locator.c:137-160 | The first metadata run keeps off both locators and ends before the middle; it is the lowest such run, and there is none exactly when the plan fails. |
| `Mirror.ExactlyThatMany` | src/storage_mirror.c:30-65 | The policy selects exactly the requested number of members, wherever it starts. |
| `Mirror.Set.Write` | src/storage_mirror.c:182-228 | Success exactly when every member of the policy took the data; afterwards all healthy members hold it, and members that failed are set aside. |
| `Mirror.Set.Read` | src/storage_mirror.c:78-152 | With I/O errors only: failure exactly when no member answers, corruption exactly when a later member is read to differ from the first one to answer, and otherwise the bytes of the first one to answer. |
| `Mirror.Set.Flush` | src/storage_mirror.c:248-280 | A member is set aside exactly when its flush fails with an I/O error, and every policy is complete afterwards exactly when it was and lost no member. |
| `Mirror.AfterWrite` | src/storage_mirror.c:182-228 | Whatever it reports, a write leaves the new data on every member still in use; a complete one leaves no member of the policy missing. |
| `Mirror.Run` | src/storage_mirror.c:78-280 | Over any run with I/O errors only: no corruption is reported, every read that succeeds returns what all earlier writes, complete or not, leave on one faultless disk, and after an incomplete write or a flush that lost a member no write reports success. |
| `Sha256.Context.Update` | kernel/infiltratorfs_crypto.c:151-168 | Feeding appends to what was fed, whatever the buffer holds. |
| `Sha256.Context.Final` | kernel/infiltratorfs_crypto.c:170-193 | The result is the padded digest of section 5.1.1 and 6.2.2 of FIPS 180-4 of everything fed. |
| `Sha256.Stream` | kernel/infiltratorfs_crypto.c:139-193 | The digest does not depend on how the message is cut into parts. |
| `Sha256.OneShot` | src/checksum.c:144-172 | The one-shot form computes the same digest. |
| `Sha256.NameDigest` | kernel/infiltratorfs_directory_tree.c:13-41 | Folding in parts of 64 bytes gives the digest of the folded name. |
| `Security.AccessAllowed` | src/security.c:271-301 | Access is granted exactly when the descriptor is valid, the rights are known, and for each right the first entry that applies and names it allows it. |
| `Security.DeniedByFirst` | src/security.c:271-301 | A right that is first denied is not granted, whatever follows. |
| `Security.PassedIsUseful` | src/security.c:303-392 | An inherited entry is valid, keeps its rights, and is in force or will be inherited further. |
| `Security.CountIsLength` | src/security.c:330-392 | The counting pass and the filling pass agree. |
| `Security.Inherit` | src/security.c:303-392 | Inheritance succeeds exactly for a valid parent and real principals, and the child holds exactly the entries passed on, in order, valid. |

## Left out

- Formats before 0.19 and their midpoint and end probing: the locator format replaces them.
- The object graph walk, the cyclic redundancy check, the body of the SHA-256 compression, encryption and compression codecs: parameters or not modelled.
- Byte packing of superblocks and of tree, directory, index and extent pages; bitmaps are sequences of booleans. Only the recovery locator is modelled byte by byte.
- Header fields whose tests depend on nothing else (magic, versions, feature flags, labels) are summed up by one flag in each module.
- Memory failure, and I/O errors outside discovery, publication, repair and mirroring.
- 64-bit wrap-around where the source tests for it first; it is modelled where it decides something (generation overflow, the sentinel of the shared sweep, the hash length).
- The free-extent index, locality scoring, hints and media profiles: accelerators and policies whose choices the claim tests again.
- Reservation availability (the metadata reserve) and the resize_active flag: they only refuse reservations.
- Transaction rollback and abort at unmount; the operation rollback is covered by `Directories.UndoRestores` for pages.
- Snapshots, quotas, the VFS layer, the page cache and workqueues.
- The portable twin of discovery in src/locator.c, which repeats the kernel's; its metadata planning is modelled.
- Timestamps, link counts and attributes in directory updates.
- Extent layouts other than the pointer tree, and compressed extents in the mapping.
- Transaction.Tx.Alloc: models a request for one block, which is what every caller asks for; longer runs go through the arena search of `Arenas.Search`.
- Transaction.Tx.FindFree: models the search for one block, for the same reason.
- Transaction.Tx.DeferFree: asks that the blocks are allocated, which every caller in the copy-on-write path guarantees and which the source needs: recording a block that is handed out again before publication would free the new page.
- SharedIndex.Index.Build: asks that no extent ends at the very last 64-bit block number, which is the sentinel of the sweep, and that the extents number less than 2^63.
- SharedIndex.Index.AddOwner: asks that no extent ends at the very last 64-bit block number, which is the sentinel of the merge.
- SharedOwners.Merge: asks the same, and that the file owns something; otherwise the source returns before it gets to the merge.
- Directories.Update: asks that an added name is portable; every caller has had it checked by infilfs_name_validate (kernel/infiltratorfs_name_policy.c:92-113).
- Checksums.SetRange: models the list of changes, whose room is what lack of space refers to; the blocks of rewritten objects come from `Transaction.Tx.Alloc` and are not modelled with it.
- ChecksumAppend.AppendTail: the same.
- VisitSet.Probe: takes the home of a key modulo the table size where the source masks with a power of two.
- Mirror.Set.Read: other failures than I/O errors are passed on as they come, and which of several is passed on is not stated.
