# ConcurrentFS in Dafny

ConcurrentFS is a journaled file system with an on-disk format of its own. This project models its hard
parts and proves what they are for:

- the crash-safe storage engine: journal, buffer cache, checkpoint, recovery (`Engine*`, `Redo`,
  `Recovery`, `CacheShard`, `LruLists`);
- the log file and its checksum (`WalFormat`, `WalDamage`, `Wals`, `Crc32`);
- the journal's gate and how large a transaction grows (`Gate*`, `OpLimit`);
- the bitmaps, the allocator and the block map (`Bits`, `Bitmaps`, `Allocators`, `BlockTree`, `BlockMap`,
  `BlockList`, `Volume`, `Charges`);
- the consistency rules, mkfs, fsck, and every call that changes the tree or a file (`Layout`, `Codec`,
  `DiskImage`, `NameTree`, `ImageOps`, `ImageUpdate`, `TreeOps`, `Superblocks`, `Mkfs`, `Fsck*`,
  `DirSlots`, `FileData`, `FileGrowth`, `FileIO`, `Calls`, `Vfs`);
- the locks and the mount gate (`Locks`, `InodeLocks`, `MountGate`);
- the engine and the calls joined through the on-disk format (`DiskFormat`, `CrashImage`).

`dafny verify dfyconfig.toml` checks all of it.

How the parts meet. `Layout` has the constants and the entities, `DiskImage` an image (superblock, the two
bitmaps as sets, the inode table, the blocks), `NameTree` the tree of names an image holds. `Consistent` is
the rules of include/vfs/layout.h:130-159, with a superblock that passes and the rest of block 0 zero. `Good` is
`Consistent` of an image whose table and bitmaps have the sizes its superblock gives. `Tidy` says that bytes past
a file's size are zero in the blocks it owns. `Volume` is a mounted image that the calls change; its
ghost fields say which image it started from and which blocks of the disk have been written since, and
`Covered` that nothing changed outside them.

Concurrent code is a state machine whose steps are single atomic accesses (`Gate`, `MountGate`), single
lock operations (`Locks`) or stretches of code that no other thread can see half of (`Engine`). A run is a
sequence of states with a step between each two. What loops over data or changes fields is a method, proved
against a function or a relation whose meaning the lemmas state.

A crash keeps any part of the unsynced log that is a prefix, and of each block of the image written since
the last sync either its new bytes, its old ones, or any others. Block 0 is written atomically, as its 48
bytes lie in one sector.

## Model

| member | source | states |
|---|---|---|
| EngineTheorems.CrashSafety | src/storage.cpp:297-391 | in every run, whatever unsynced bytes a crash loses, recovery leaves the blocks exactly as some number of whole operations left them: all that an earlier sync made sure of, and, with all its writes, every operation that had ended when a `commit()` was called that has returned |
| EngineTheorems.CommitIsKept | src/storage.cpp:139-156 | said of the steps of a run alone: once a `commit()` has returned, with no crash or unmount since it was called, every operation that had ended at the call survives any number of crashes, with everything it wrote |
| EngineTheorems.SureForGood | src/storage.cpp:331-350 | what recovery must produce only grows, through any steps and crashes: the same writes in the same order, and perhaps more |
| EngineTheorems.RunKeeps | src/storage.cpp:83-203 | every state of every run keeps the engine's invariant, on which the other results rest |
| EngineTheorems.WriteBackHarmless | src/buffer_cache.cpp:334-443 | no load, eviction or pick, copy, recheck, write or clean of a write-back pass, between any other steps, changes what recovery would make of the files |
| EngineTheorems.RecoveryRepeats | src/recovery.cpp:25-52 | at every point of a recovery or a mount, whatever a crash then leaves recovers to the same committed contents |
| EngineTheorems.ReadsSeeWrites | src/buffer_cache.cpp:227-284 | a read of a block in any mounted state gives what all writes made so far, committed or not, made of it, through any evictions and write-backs |
| EngineTheorems.MountedAsRecovered | src/storage.cpp:441-478 | when a mount is done, the image and every read are the contents recovery owed |
| EngineTheorems.CloseLosesNothing | src/storage.cpp:196-203 | after a clean close the log is empty and the image alone holds every write ever made |
| EngineKill.KillThenLoss | src/recovery.cpp:25-52 | a killed process, then a loss of power while recovery redoes what it found, always leaves a whole commit if and only if the kill did not fall between writing and syncing a COMMIT that brings in a block the synced log has no image of |
| EngineKill.WindowReached | src/storage.cpp:356-378 | one mount, one operation and one commit lead from a clean image into that window, and to a loss after which the image is no whole number of commits |
| CrashImage.CrashLeavesGood | src/vfs.cpp:678-807 | if the operations, one after another, each come to what a call makes, then after any crash recovery leaves blocks that spell a consistent image, the one some number of whole operations left, none missing that had ended when a `commit()` was called that has returned |
| CrashImage.CallOnDisk | include/vfs/layout.h:70-110 | writing only the blocks a call charged to itself turns a disk that spells the image before into one that spells the image after |
| CrashImage.CallMade | src/vfs.cpp:678-807 | any call on a volume that keeps the rules and the record of blocks written is such an operation |
| CrashImage.CallCanBeMade | src/inode_table.cpp:17-38 | for whatever a call makes of the image there are bytes that do it |
| CrashImage.SomeDisk | src/mkfs.cpp:23-85 | every consistent image has a disk that spells it |
| DiskFormat.BlockForHolds | include/vfs/layout.h:70-110 | the bitmap bits, the inodes and the data that an image has in a block can all be laid out in that block and are read back from it |
| DiskFormat.InodeAt | include/vfs/layout.h:87-99 | each field of an inode is at its own bytes of the 128, lowest first |
| DiskFormat.InodeBack | include/vfs/layout.h:87-99 | an inode's 128 bytes, field after field, give that inode back |
| Recovery.Recover | src/recovery.cpp:10-55 | a recovery that is let finish leaves exactly the redo of committed transactions past the checkpoint, moves the checkpoint to the last lsn seen, empties the log and counts right; one stopped after any number of writes, the last torn, leaves a state described by `LeftAt` |
| Recovery.SameEnd | src/recovery.cpp:25-52 | a recovery begun from where another stopped has the same image and the same checkpoint ahead of it |
| Recovery.AnyNumberOfTimes | src/recovery.cpp:25-52 | however often recovery is cut off, with blocks torn, also between the superblock and the emptying of the log, its end is that of one uninterrupted recovery |
| Redo.ReplayIs | src/recovery.cpp:25-41 | after recovery a block is what the last image of it past the checkpoint says, among transactions with a COMMIT in the log, or what it was if there is none |
| Redo.RedoPassIsOverlay | src/recovery.cpp:29-41 | the redo pass amounts to putting each block's last committed image over the disk |
| GateTheorems.RunKeeps | src/storage.cpp:243-354 | every state of every run of the gate keeps the gate's invariant |
| GateTheorems.GroupCommit | src/storage.cpp:297-354 | while a commit runs no operation is inside, one thread runs it, and it holds all operations begun so far, whole, as many as it will report covered |
| GateTheorems.DurablePrefix | src/storage.cpp:331-350 | what finished commits hold is exactly the first `committed_through_` operations |
| GateTheorems.FsyncGuarantee | src/storage.cpp:139-156 | of any stretch that a thread spends in `commit()`: every operation that had ended when it read the count, or before, is durable when it leaves, and for good |
| GateTheorems.NoLostWakeup | src/storage.cpp:83-107 | with the gate closed and no commit running, a thread holding the mutex is about to run one, or one is requested and an operation is still inside or its last thread is on its way; and threads wait only at a closed gate |
| GateTheorems.NoDeadlock | src/storage.cpp:243-281 | while a thread waits at the gate, another thread, neither waiting nor idle, can take a step |
| GateSize.WithinLimit | src/storage.cpp:83-107 | a transaction never exceeds the limit if every entry still fitted when it was made |
| GateSize.ExcessBounded | src/storage.cpp:236-267 | however checks and entries interleave, the excess is at most one operation's worth for each thread but one |
| GateSize.RoomIsExact | src/storage.cpp:236-241 | the running operations cannot outgrow the limit, however they go on, if and only if there is room for all that they may still write |
| GateSize.LimitExceeded | src/storage.cpp:243-268 | three threads suffice to exceed the limit, as check and entry are two steps |
| Volume.Volume.AllocAll | src/block_map.cpp:31-41 | n blocks, each the lowest that was free in its turn, or none |
| Volume.Volume.BmapRead | src/block_map.cpp:57-73 | the block of the pointer tree for a file block, 0 for a hole, EFBIG exactly past the largest file |
| Volume.Volume.BmapAlloc | src/block_map.cpp:75-143 | the file block gets a block nobody had, every other file block stays, what the inode owns stays distinct and counted; or ENOSPC and the inode and image are as before; only blocks on the way to that file block, and their bits' homes, are written |
| Volume.Volume.FreeAllBlocks | src/block_map.cpp:145-173 | exactly the blocks the inode owns are given back, and exactly the bitmap blocks with their bits are written |
| BlockTree.MappedSound | src/block_map.cpp:75-143 | with the new pointers in place the inode still owns each of its blocks once, and its count is right |
| Volume.Volume.DirLookup | src/directory.cpp:47-61 | 0 if and only if no entry has the name, else number and type of the first that has it |
| Volume.Volume.DirAdd | src/directory.cpp:63-86 | the entry stands in the first slot that was free, or first in one new block if none was, and all other slots are as before; or nothing has changed and the error says why |
| Volume.Volume.DirRemove | src/directory.cpp:88-102 | the named slot alone is zeroed; nothing if there is none |
| Volume.Volume.DirIsEmpty | src/directory.cpp:120-130 | true if and only if every slot past the first two is free |
| Allocators.Allocator.Alloc | src/alloc.cpp:49-74 | the lowest free number is taken in the bitmap in memory and the one on disk, which agree as sets; full if and only if nothing is free |
| Allocators.Allocator.Free | src/alloc.cpp:76-106 | clears exactly the listed bits in both bitmaps if the list is good and without repeats, and otherwise changes nothing |
| Bitmaps.Bitmap.FindFirstFree | src/bitmap.cpp:55-75 | the least clear bit, if there is one |
| Bitmaps.Bitmap.Load | src/bitmap.cpp:84-103 | the words denote the set of bits on disk, spare ones dropped |
| Bitmaps.Bitmap.Store | src/bitmap.cpp:105-115 | the bytes have the set the words denote, and clear spare bits |
| Superblocks.PassesIs | src/superblock.cpp:72-101 | a superblock passes if and only if its fixed fields are right and its regions follow in order, each in the fewest whole blocks for what it holds, with room left |
| Superblocks.RegionsFit | src/superblock.cpp:72-101 | a superblock that passes has its regions in order, each large enough for what it is for |
| Superblocks.PlanIs | src/superblock.cpp:25-70 | a plan is marked clean with an empty log and has the fewest whole table blocks of inodes for what was asked, or for one inode in 16 blocks |
| Superblocks.RefusedIs | src/superblock.cpp:25-70 | a size is refused if and only if no superblock with as many inodes would pass |
| Superblocks.PlanPasses | src/superblock.cpp:25-70 | whatever is planned, a mount accepts, with the inodes asked for |
| Mkfs.Mkfs | src/mkfs.cpp:23-85 | on a device with any contents it makes an image that keeps every rule, with the root alone in the tree and just the metadata and the root's block in use; it refuses exactly when the plan is refused |
| Fsck.Checker.Run | src/fsck.cpp:42-56 | it reports no problem if and only if the image is consistent and no directory has more than 2^20 blocks; and it ends |
| Fsck.Checker.CheckSuperblock | src/fsck.cpp:94-113 | nothing to report if and only if the superblock passes and the rest of block 0 is zero |
| Fsck.Checker.CheckInodes | src/fsck.cpp:134-181 | nothing to report if and only if every inode keeps its own rules and owns blocks nobody else owns, the root is a directory, and no directory has more than 2^20 blocks |
| Fsck.Checker.Claim | src/fsck.cpp:195-214 | a block is an inode's if and only if it is a data block that nobody claimed before |
| Fsck.Checker.CheckBlocks | src/fsck.cpp:216-305 | nothing to report if and only if every pointer is good and claimed by this inode alone, count and size are right, and a directory is not too long to list; then exactly the inode's blocks are marked its own |
| Fsck.Checker.WalkTree | src/fsck.cpp:309-324 | the walk ends; if it finds nothing it has visited every directory with a name exactly once and counted every entry, and if it finds something the directories break their rules |
| Fsck.Checker.CheckDirectory | src/fsck.cpp:326-410 | nothing to report if and only if all slots of the directory keep its rules |
| Fsck.Checker.CheckLinks | src/fsck.cpp:431-458 | nothing to report if and only if each inode in use is reached, has one name and has as many links as entries |
| FsckWalk.LinksSound | src/fsck.cpp:431-458 | if the counts of a clean walk are right, the whole tree keeps its rules |
| FsckWalk.LinksComplete | src/fsck.cpp:431-458 | if the tree keeps its rules, the counts of a clean walk are right |
| Fsck.Checker.CheckDataBitmap | src/fsck.cpp:462-477 | nothing to report if and only if the bits set are those of the metadata and of claimed blocks |
| BigDirectory.ConsistentNotMappable | src/fsck.cpp:216-232 | a consistent image that fsck reports, as its root directory is too long to be listed |
| TreeOps.AddKeepsTree | include/vfs/layout.h:133-156 | a new inode with one new entry leaves all rules of the tree in force: names, links, parents, reachability |
| TreeOps.RemoveKeepsTree | include/vfs/layout.h:133-156 | so does taking away a file, or an empty directory, with its entry |
| Calls.CreateFile | src/vfs.cpp:272-285 | a consistent image gets one new, empty file, with the lowest free number, and nothing else in the tree changes; or nothing changes and there was no room; at most 10 blocks are written |
| Calls.MakeDir | src/vfs.cpp:695-726 | the same for a new directory with "." and "..", at most 12 blocks; without room for its entry, inode and block go back |
| Calls.RemoveEntry | src/vfs.cpp:757-766 | the entry, the inode and its blocks go, the rules hold, nothing else in the tree changes, and the blocks written are exactly the entry's, those with the freed bits, and the two inodes' |
| Calls.Truncate | src/vfs.cpp:320-328 | the file is empty and owns nothing, everything else is as it was; a file that was empty is not touched |
| InodeLocks.LockManager.Acquire | src/lock_manager.cpp:5-10 | one more reference to the one entry for the number; a new entry, with nothing valid in it, only if there was none |
| InodeLocks.LockManager.Release | src/lock_manager.cpp:12-17 | the entry goes with its last reference and not before |
| InodeLocks.OneLock | src/lock_manager.cpp:5-17 | all who hold a reference to a number have the same entry, and so the same lock |
| Vfs.OpenChanging | src/vfs.cpp:290-332 | with O_CREAT or O_TRUNC: a new file, the file found, or the file emptied; every error with its exact cause and nothing changed; the file's entry counts one descriptor more and every other entry as many as before; every valid copy of an inode in a lock entry is still the stored inode |
| Vfs.OpenExisting | src/vfs.cpp:336-344 | without those flags: the same count, nothing on the disk changed, and EISDIR if and only if it is a directory |
| Vfs.Mkdir | src/vfs.cpp:678-728 | a new, empty directory, or an error with its cause and nothing changed; rules and copies stay true |
| Vfs.Unlink | src/vfs.cpp:730-768 | the file of that name goes unless some descriptor has it open; or an error with its cause and nothing changed; rules and copies stay true, also when the number is used again while its entry lives |
| Vfs.RemoveDir | src/vfs.cpp:770-807 | the same for an empty directory |
| Vfs.Close | src/vfs.cpp:482-495 | the descriptor's reference goes, its entry counts one descriptor fewer, and every other entry as many as before |
| Vfs.ReadOpen | src/vfs.cpp:497-519 | through the copy in the lock entry, when there is one, a read gives the file's bytes from the offset on, as many as there are, and the offset moves past them |
| Vfs.WriteOpen | src/vfs.cpp:521-624 | a write leaves the old contents with the bytes written spliced in and zeros in any gap; a short write is a prefix, and the next block could not be had or the file is as large as can be; the offset ends after what was written, and stays on EFBIG; no other file changes, and every valid copy of an inode is the stored inode |
| FileIO.ReadRange | src/vfs.cpp:356-380 | the bytes of the file's contents from pos on, holes as zeros, up to its size |
| FileIO.Write | src/vfs.cpp:534-623 | chunk by chunk, the contents are the old ones with the bytes written spliced in; where it stops short there were too few free blocks for the next one; the offset on success and on each error |
| FileIO.WriteChunk | src/vfs.cpp:540-612 | a chunk's bytes are in, the image is consistent, and at most MAX_OP_BLOCKS different blocks have been written |
| Charges.ChunkPlaces | src/vfs.cpp:545-549 | the 16 file blocks of a chunk and the indirect blocks on the way to them are at most 20 |
| WideFile.RemovalFits | src/block_map.cpp:145-173 | a removal keeps to MAX_OP_BLOCKS if and only if the file's blocks have their bits in few enough bitmap blocks, which is always so when the disk has no more than 60 of them |
| WideFile.TooWide | src/block_map.cpp:145-173 | a consistent image with a file whose removal writes more than MAX_OP_BLOCKS blocks |
| WideFile.SpreadFile | src/block_map.cpp:145-173 | for each n up to 65, a consistent image with a file whose blocks have their bits in n + 1 bitmap blocks |
| Crc32.Crc32 | src/crc32.cpp:30-53 | the table-driven loop gives the bit-by-bit division of the whole message |
| Crc32.Terms | src/crc32.cpp:17-26 | the polynomial has just the terms of section 8 of RFC 1952 |
| Crc32.OneByteOfOnes | src/crc32.cpp:30-53 | the value for the byte 255, which fixes how the register starts and ends |
| Crc32.TableStep | src/crc32.cpp:17-26 | one table step is eight single-bit divisions, for every register |
| Crc32.CrcAppend | src/crc32.cpp:30-53 | the CRC of b continued from that of a is the CRC of a followed by b |
| Crc32.OneByteShows | src/crc32.cpp:30-53 | messages that differ in exactly one byte never share a CRC |
| WalFormat.ScanPrefix | src/wal.cpp:92-135 | scanning any byte prefix of a log gives exactly the records that lie whole in it |
| WalFormat.ScanIs | src/wal.cpp:92-135 | of any bytes at all, scan gives acceptable records with one lsn after another that lie in them from the start, and goes on as long as there is another |
| WalDamage.ScanDamaged | src/wal.cpp:92-135 | with any one byte of a record changed, scan gives the records before it and no more, whatever follows |
| Wals.Wal.Encode | src/wal.cpp:137-164 | one record more, with the kind, transaction, block, bytes and next lsn given it; its bytes join the batch |
| Wals.Wal.Append | src/wal.cpp:190-203 | the same record, in the file with all of the batch before it |
| Wals.Wal.Stage | src/wal.cpp:205-234 | the same record, in the batch, which is written out first just when it is too full for it, and never overflows |
| Wals.Wal.Sync | src/wal.cpp:243-248 | every record so far is in the file and durable |
| Wals.Wal.Reset | src/wal.cpp:250-265 | no record is left and the next has the given lsn |
| Wals.Wal.CrashKeepsPrefix | src/wal.cpp:92-135 | after any sequence of calls, scanning any prefix of the file not shorter than what was synced gives a prefix of the records made, with all the durable ones |
| CacheShard.Shard.TakeFrame | src/buffer_cache.cpp:99-146 | which frame goes: the least recently used that is free, unheld and clean, else the least recently used dirty one the log is durable for, else a new one; no read of any block changes, and what is written to the disk was committed by a commit the log has for sure |
| CacheShard.Shard.Acquire | src/buffer_cache.cpp:153-220 | the block's frame, pinned and in front, with the bytes a read would have seen or zeros if they are not wanted |
| CacheShard.Shard.Read | src/buffer_cache.cpp:227-247 | the last change of the block or else the disk's bytes; no later read of any block is changed by it, pins are as before, and the frame is in front |
| CacheShard.Shard.Modify | src/buffer_cache.cpp:249-296 | later reads of the block see what was made of its bytes, reads of others what they saw; its frame is a version on and stands in the transaction or is dirty, and no other frame changes but the one given up |
| CacheShard.Shard.CopyTxnFrame | src/buffer_cache.cpp:298-315 | a commit logs what a read would see, and only of a block the transaction holds |
| CacheShard.Shard.CommitFrame | src/buffer_cache.cpp:317-332 | the frame leaves the transaction dirty, a version on, at the commit's lsn; no other frame changes |
| CacheShard.Shard.WriteBack | src/buffer_cache.cpp:334-443 | from the least recently used end, just the frames that were dirty, in no transaction and of a commit the log has for sure are written and clean, as many as allowed; every other frame is as it was, nothing else reaches the disk, the dirty count drops by exactly as many, and no read changes |
| LruLists.LruList.Unlink | src/buffer_cache.cpp:70-74 | the frame is gone from the chain of pointers and the rest are in their order |
| LruLists.LruList.PushFront | src/buffer_cache.cpp:76-81 | the chain is the frame and then what it was |
| LruLists.LruList.PushBack | src/buffer_cache.cpp:83-88 | the chain is what it was and then the frame |
| MountGate.RunKeeps | src/vfs.cpp:95-149 | each slot always counts exactly the calls that entered through it, through every interleaving |
| MountGate.InsideIsMounted | src/vfs.cpp:172-183 | a call that was let in finds a file system mounted, and none being made or taken away |
| MountGate.DrainedExcludes | src/vfs.cpp:421-446 | from when close_and_drain returns until the gate opens, no call is inside and none gets in |
| MountGate.DrainAdvances | src/vfs.cpp:130-149 | the drain gets past a slot if and only if no call is counted there |
| Locks.RunKeeps | src/vfs.cpp:193-206 | every state of every run of the locking protocol keeps its invariant |
| Locks.LockedIsLinked | src/vfs.cpp:193-206 | an inode that a thread has locked has a name, unless that thread itself removed it; an exclusive lock is the only one |
| Locks.FoundStays | src/vfs.cpp:193-206 | a name found still leads to the inode while its lock is waited for and when it is granted |
| Locks.OpenIsLinked | src/vfs.cpp:749-766 | an open file always has a name |
| Locks.NoRing | src/vfs.cpp:4-14 | no state of any run has threads each waiting for the next in a ring |
| Locks.SomeoneMoves | src/vfs.cpp:4-14 | with any call under way some thread can move, or the commit that closed the gate can end |

## Findings

Where the code does not do what it is meant to, the model keeps the code as it is, exhibits an input and says
exactly when all is well.

- A process killed after a COMMIT record was written and before it was synced, followed by a loss of power while
  the next mount redoes that transaction, can leave part of a transaction. Recovery does not sync the log
  before it writes to the image (src/recovery.cpp:25-52). `EngineKill.KillThenLoss` says exactly when,
  `EngineKill.WindowReached` shows a run that gets there. A single crash, whatever it loses, is always safe
  (`EngineTheorems.CrashSafety`).
- A transaction can exceed `max_txn_blocks_`, as `begin_op_slow` adds itself some time after `fits` and the fast
  path's compare-and-swap compares the count of operations but not of blocks (`GateSize.LimitExceeded`).
  `GateSize.WithinLimit` says when it does not happen, and `GateSize.ExcessBounded` how far it goes.
- Unlinking or truncating a file whose blocks are spread over more than 60 or so bitmap blocks, on a disk past
  7.5 GB, writes more blocks than MAX_OP_BLOCKS (`WideFile.TooWide`, with the exact condition in
  `WideFile.RemovalFits`).
- fsck reports a problem for a directory of more than 2^20 blocks though it may break no rule
  (`BigDirectory.ConsistentNotMappable`); up to that its answer is exact (`Fsck.Checker.Run`).

## Left out

- CrashImage.CrashLeavesGood: takes operations as calls made one after another. That concurrent calls in one
  transaction come to the same as some order of them is what the locks are for (`Locks`), but is not proved.
- CacheShard.Shard.WriteBack: one shard and nothing going on beside it. A pass whose picks, copies, checks, writes and
  cleaning fall between other threads' steps is in `Engine`, where a load from the disk is one step and there are no
  read pins; sorting picks and writing neighbours in one go is in neither.
- Wals.Wal.Encode: requires the three kinds of record the journal makes, for a block of the disk; the lsn must not
  have reached 2^64.
- Fsck.Checker.Run: counts problems; their text and the cap on how many are listed are not modelled.
- MountGate.DrainAdvances: that every call comes out in the end is a matter of scheduling and is not stated.
- FileIO.Write: starts where the checks of flags, of an empty buffer and of the descriptor are over; `Vfs.WriteOpen`
  has the empty write.
- I/O errors, short reads and writes, and the failed state of journal and cache: devices work until a crash.
- The mode without a journal, which promises nothing after a crash.
- Splitting paths into names (src/path.cpp): calls get the names already split and checked, and the directory
  already found; finding it is in `Locks`.
- The table of descriptors, lseek, stat, readdir and the statistics.
- The flusher's clock and commit intervals: it may commit at any time. What the clock says when a time is stored is
  arbitrary.
- The CRC instructions of ARM processors.
- The bytes of the superblock: its fields are read and written as one value.
- The join of the log's bytes (`Wals`) and the engine's records (`Engine`), which take a record as a unit.
- The mutexes inside the allocator and the cache, which are taken last and held for one step.
- The C++ memory model: atomic accesses are sequentially consistent, as the source asks for.
