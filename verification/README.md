# xv6 for ARMv8, verified

A model in Dafny of the parts of xv6-armv8 that carry its guarantees, with proofs of what those parts are for:

- the redo log and the buffer cache: a transaction is all or nothing whatever sector write the power fails at, also when
  it fails again during recovery;
- the buddy allocator: free and live blocks always tile the heap, the free blocks are determined by the free memory, and
  a block is split only when none of its order is free;
- the inode layer: a file is a sequence of bytes, with every block owned once and the inode on disk up to date, over
  every run of calls from the disk that mkfs makes;
- `filewrite`: a long write split into transactions that fit the log, and what a crash leaves of it;
- user-level `malloc` and `free`: the address-ordered circular list of Kernighan and Ritchie, section 8.7;
- the process table: no lost wakeup, no stranded zombie, over every run of its atomic steps;
- pipes: first in, first out under wrapping counters, nothing lost or repeated, over every interleaving;
- the regular expression matcher of grep and the command parser of the shell, against declarative meanings.

`dafny verify dfyconfig.toml` checks everything.

## How it is organised

| files | source | content |
|---|---|---|
| Words, Sets | | bytes, words, blocks; finite sets |
| LogSpec, Bio, Log | log.c, bio.c, memide.c | crash images and recovery as functions on disks; the cache and the log as classes that produce exactly those images |
| Bits, BuddySpec, MarkList, Buddy | buddy.c | sets of blocks; packed links; the allocator as a class over its mark array |
| FsLayout, FsSpec, FileSpec, TruncSpec, FsSteps, Fs | fs.c, fs.h | on-disk format; ownership; bytes; truncation; the sectors each step logs; the operations as a class |
| Acts, Transactions, File, Storage | file.c, log.c, bio.c | the buffers a call uses; sequences of transactions and crashes in them; filewrite, its log and buffer budget; all of it carried out by the log and the cache |
| Volume, Session | fs.c | the whole disk as a map from inodes to bytes; runs of calls on any inodes |
| Dir, MkfsSpec, Mkfs | fs.c, tools/mkfs.c | looking up a name; the disk a system starts from, and systems started on it |
| UmallocSpec, Umalloc | usr/umalloc.c | ascending lists of blocks; the allocator as a class over its headers |
| ProcSpec, Proc | proc.c | the table as a system of steps; the table's code |
| PipeSpec, Pipe | pipe.c | a queue with sleepers; the ring buffer |
| Grep | usr/grep.c | items and cuts; the matcher |
| ShellSpec, ShellGrammar, ShellRound, Shell | usr/sh.c | the parser as functions on text; the grammar and its meaning; spelling and reading back; the cursor code and the terminators |

State the source updates in place is a class with the same fields; loops are loops. Each such method is tied to a
function or predicate on values, and the theorems are about those. A panic is a stop: it is an outcome of the method,
or it is shown unreachable, or, where the source demands something of its callers, it is a precondition. Lock-held
regions are single steps. The results of sbrk, of page allocations and of kill are parameters.

The layers meet in four places. `Log.Log.Lock`, `Log.Log.Store` and `Log.Log.Unlock` show that the cache and the log
present callers with one logical disk, the transaction's start with its writes replayed. `Fs.Fs` works on that logical
disk and records every bread, log_write and brelse as a list of acts. `File.CrashKeepsWholeChunks` and
`Session.CrashKeepsWholeCalls` take the lists of a filewrite and of a session back down into the log's runs of
transactions, crashes and reboots, `Storage.Persist` and `Storage.PersistCalls` act by act through the code of the log
and the cache. `Mkfs.Boot` starts the inode layer on the disk that mkfs makes.

A panic of log_write in the middle of writei, readi or itrunc is recorded where it happens (`Fs.Fs.LogWrite`), and the
outer method reports it. The code in between runs on as if the log had no end; its contracts are about that run, of which
the real one is a beginning.

## What turned out to be conditional

- A transaction ends at nine distinct sectors, not at the ten of LOGSIZE: with a log of ten blocks the test against
  `size - 1` stops the tenth, and it does so even for a write that would have been absorbed (`LogSpec.AcceptedNext`).
  The ten buffers of the cache set the same limit (`Log.Log.WriteBlock`).
- balloc hands out the lowest free block without regard to the log, which the free map does not protect: the block is
  outside the log exactly when some block below the log is free (`Fs.Fs.Balloc`). On a disk whose data blocks are all
  taken it is the first block of the log, and there are images of mkfs like that (`Mkfs.BallocSpills`, `Mkfs.FullImage`).
  writei and filewrite get there exactly when the file lacks more blocks than are free (`Fs.Fs.Writei`, `File.FileWrite`).
- writei does not cut long writes into pieces that fit the log, as filewrite does: a single call completes exactly when
  also the sectors it logs are at most nine (`Fs.Fs.Writei`, `Session.Perform`). 2561 bytes always fit and 2562 do not
  (`FsSteps.SafeLength`).
- mkfs rounds the size of the root directory up even if it is a multiple of a block: the image then has a hole, and is
  sound exactly when two more than the number of files is no multiple of 32 (`Mkfs.Format`). readi leaves the disk alone
  exactly on mapped blocks; outside a transaction it does not return from a hole (`Fs.Fs.Readi`, `Mkfs.HoleIsRead`).
- A file that mkfs puts on the disk is found by its name exactly when no earlier entry of the directory has the same first
  fourteen characters (`MkfsSpec.FoundInRoot`, `Mkfs.FindFile`).
- Link indices of the buddy allocator fit beside NIL exactly when 64 * ((len >> 17) + 1) is at most 0xFFFF
  (`Buddy.IndexFits`); its last page lies inside memory exactly when the end is page aligned (`Buddy.PagesFit`).
- malloc conserves units against sbrk exactly for requests below 2^27 units, because sbrk takes an int
  (`UmallocSpec.RequestExact`, `UmallocSpec.LargestRequest`).
- A pipewrite that finds the read end closed returns without waking readers; that loses no wakeup because a sleeping
  reader keeps that end open (`PipeSpec.WriteKeeps`).

## Model

| member | source | states |
|---|---|---|
| Words.GetPutWord | xv6-armv8/log.c:89-126 | A 32-bit word stored little-endian in a block is read back unchanged. |
| Words.PutGetWord | xv6-armv8/log.c:89-126 | Storing the word that is already there leaves the block as it is. |
| LogSpec.HeaderRoundTrip | xv6-armv8/log.c:89-126 | The header block that write_head lays out is read back by read_head as the same count and the same sector list. |
| LogSpec.InstalledAt | xv6-armv8/log.c:70-86 | After install_trans every listed home sector holds its log block and every other sector is untouched. |
| LogSpec.InstalledTwice | xv6-armv8/log.c:70-86 | Installing a second time on top of a partial installation gives the same disk. |
| LogSpec.RecoveryRestarts | xv6-armv8/log.c:128-134 | Recovery started again from any disk an interrupted recovery can leave ends in the same disk as an undisturbed one. |
| LogSpec.RebootsConverge | xv6-armv8/log.c:128-134 | Any number of recoveries, each interrupted anywhere, followed by one that completes, ends where a single recovery would. |
| LogSpec.LoggedSectorsExact | xv6-armv8/log.c:171-202 | Absorption loses no sector and invents none: the logged sectors are exactly the sectors written. |
| LogSpec.SlotsInOrder | xv6-armv8/log.c:184-199 | Slots are given out in order of first use: each slot is that of a write before which exactly the lower slots were taken, none of them for its sector. |
| LogSpec.LoggedSectorsValid | xv6-armv8/log.c:171-202 | The logged sectors of an accepted transaction are pairwise distinct, outside the log and no more than the header and the log can carry. |
| LogSpec.AcceptedNext | xv6-armv8/log.c:176-178 | One more log_write is accepted exactly while fewer than LOGSIZE and fewer than size - 1 sectors are logged, absorbed or not. |
| LogSpec.FineIsAccepted | xv6-armv8/log.c:176-182 | The first panic of log_write in a list of calls inside a transaction is none exactly when every call passes the count test. |
| LogSpec.FineExactly | xv6-armv8/log.c:176-188 | If the last call names a new sector, no call panics exactly when the distinct sectors are at most LOGSIZE and at most size - 1. |
| LogSpec.UncommittedVanishes | xv6-armv8/log.c:128-161 | A crash before the header is written is recovered to the home sectors from before the transaction. |
| LogSpec.CommitEqualsReplay | xv6-armv8/log.c:148-202 | Once the header is written, recovery gives the home sectors of the writes applied in order, the last one to a sector winning. |
| LogSpec.CrashImageAt | xv6-armv8/log.c:148-202 | Each disk that can exist between two sector writes of a transaction is recovered to the state before it or to the committed one, by position. |
| LogSpec.CrashAtomicity | xv6-armv8/log.c:70-161 | All or nothing: crash at any write of a transaction, then at any write of any number of recoveries; the final home sectors are all old or all new, and the header count is zero. |
| LogSpec.RunIsSerial | xv6-armv8/log.c:70-202 | Over every run of transactions, crashes and reboots the home sectors are those of a serial execution of exactly the durable transactions. |
| Bio.RelinkMovesToFront | xv6-armv8/bio.c:123-142 | The link updates of brelse turn the circular list into the same list with the buffer moved behind the head. |
| Bio.MovedToFrontIsPermutation | xv6-armv8/bio.c:123-142 | Moving to the front keeps the list a permutation of all buffers. |
| Bio.InsertedInFront | xv6-armv8/bio.c:38-56 | The link updates of binit insert a buffer behind the head of a circular list. |
| Bio.RingCoversAll | xv6-armv8/bio.c:38-56 | A list of full length without repetition misses no buffer. |
| Bio.CleanAgrees | xv6-armv8/bio.c:61-108 | A sector without a dirty or busy buffer reads as its disk contents, whether cached or not. |
| Bio.NoneRecyclable | xv6-armv8/bio.c:61-94 | If no buffer can be recycled then the sectors held or pinned are as many as the buffers. |
| Bio.FullMeansNone | xv6-armv8/bio.c:61-94 | If the sectors held or pinned are as many as the buffers then none can be recycled. |
| Bio.GrantKeeps | xv6-armv8/bio.c:61-108 | Handing out a buffer keeps at most one buffer per sector and all clean buffers equal to their sectors, and changes the contents of no sector. |
| Bio.Bcache.constructor | xv6-armv8/bio.c:38-56 | binit builds a valid empty cache with every buffer on the list once. |
| Bio.Bcache.Iderw | xv6-armv8/memide.c:33-63 | A dirty buffer is written to its sector and becomes clean, any other is filled from its sector; one disk image is recorded per write. |
| Bio.Bcache.Bget | xv6-armv8/bio.c:61-94 | It waits exactly for a held sector, panics exactly when the sector is uncached and nothing can be recycled, and recycles, of the buffers that are neither busy nor dirty, the one whose last brelse is the oldest. |
| Bio.Bcache.Bread | xv6-armv8/bio.c:97-108 | The buffer returned holds the last contents written or logged for its sector; no other buffer, no sector and no disk block changes; what is recycled for it is the buffer released longest ago that can be. |
| Bio.Bcache.Bwrite | xv6-armv8/bio.c:111-119 | The sector on disk becomes the buffer contents and the buffer is clean. |
| Bio.Bcache.Brelse | xv6-armv8/bio.c:123-142 | Releasing a buffer that agrees with its sector, or is dirty, keeps all cache invariants and puts it in front of the list, where all others stay in the order they had. |
| Bio.MovedByRelease | xv6-armv8/bio.c:131-136 | Moving the released buffer to the front keeps the list in the order of the last release of every buffer; it is part of the cache invariant. |
| Bio.OldestBehind | xv6-armv8/bio.c:82-91 | On a list in that order the last buffer that can be recycled is the one whose last release is the oldest. |
| Log.Log.WriteHead | xv6-armv8/log.c:109-126 | One sector write that puts the in-memory header into the header block, or the panic of bget with nothing changed, exactly when every buffer is held or pinned. |
| Log.Log.ReadHead | xv6-armv8/log.c:89-104 | The in-memory header becomes the one on disk. |
| Log.Log.InstallTrans | xv6-armv8/log.c:70-86 | The disk and the sequence of disk images are exactly those the specification of installing gives; the installed sectors are no longer pinned. |
| Log.Log.RecoverFromLog | xv6-armv8/log.c:128-134 | The disk becomes the recovered one through exactly the specified images, and the log is idle. |
| Log.Log.BeginTrans | xv6-armv8/log.c:136-146 | A transaction becomes active exactly if none is; otherwise the caller goes to sleep. |
| Log.Log.FindSlot | xv6-armv8/log.c:184-188 | The slot already holding the sector, else the next free one. |
| Log.Log.LogWrite | xv6-armv8/log.c:171-202 | It panics exactly on a full log, outside a transaction, or when bget finds no buffer; otherwise the write joins the transaction, the buffer is pinned and every home sector still reads as before. |
| Log.Log.ReadBlock | xv6-armv8/bio.c:97-108 | A read inside a transaction sees the disk with the writes so far replayed. |
| Log.Log.Lock | xv6-armv8/bio.c:97-108 | bread of a home sector nobody holds waits for nothing and delivers its block with the writes so far replayed; other locked buffers are not disturbed. |
| Log.Log.Store | xv6-armv8/log.c:171-202 | A locked buffer is changed and logged: the write joins the transaction and every other locked buffer stays current. |
| Log.Log.Unlock | xv6-armv8/bio.c:123-142 | Releasing a current buffer leaves the sector reading as the writes so far would have it. |
| Log.Log.WriteBlock | xv6-armv8/log.c:163-202 | The documented bread, modify, log_write, brelse sequence succeeds exactly when a transaction is open, the log has room and fewer than NBUF sectors are held or pinned with this one. |
| Log.Log.CommitTrans | xv6-armv8/log.c:148-161 | Home sectors become the replayed writes, nothing stays pinned, and the disk images since begin_trans are exactly the crash images of the transaction; it panics exactly when something was logged and every buffer is held or pinned, and then before its first write. |
| Bits.TestSet | xv6-armv8/buddy.c:157-189 | Setting a bit of a 32-bit bitmap word sets that bit and no other. |
| Bits.TestClear | xv6-armv8/buddy.c:115-154 | Clearing a bit clears that bit and no other. |
| Bits.ZeroIffNone | xv6-armv8/buddy.c:115-154 | A bitmap word is zero exactly when none of its bits is set. |
| MarkList.LnksRoundTrip | xv6-armv8/buddy.c:27-31 | Packing two links into a word and unpacking them gives both back exactly when each fits 16 bits. |
| MarkList.PushedChained | xv6-armv8/buddy.c:157-189 | The link updates of mark_blk push a mark onto the front of its doubly linked list. |
| MarkList.UnlinkedChained | xv6-armv8/buddy.c:115-154 | The link updates of unmark_blk take a mark out of its list wherever it is. |
| BuddySpec.WhollyFreeIsContained | xv6-armv8/buddy.c:221-281 | In a coalesced set of free blocks a block that is wholly free lies inside one free block: fragments would have been merged. |
| BuddySpec.CanonicalUnique | xv6-armv8/buddy.c:260-281 | Two coalesced sets covering the same memory are the same set. |
| BuddySpec.MergeStep | xv6-armv8/buddy.c:260-281 | Replacing two free buddies by their parent frees exactly the same memory. |
| BuddySpec.SplitStep | xv6-armv8/buddy.c:221-242 | Taking a larger block and giving back its upper half takes exactly the lower half. |
| BuddySpec.TiledAlloc | xv6-armv8/buddy.c:221-258 | Allocation keeps free and live blocks an exact tiling of the heap. |
| BuddySpec.TiledFree | xv6-armv8/buddy.c:260-294 | Freeing a live block keeps free and live blocks an exact tiling of the heap. |
| BuddySpec.HistoryIndependent | xv6-armv8/buddy.c:221-294 | The free blocks depend only on which blocks are live, not on the calls that led there. |
| BuddySpec.AllocThenFree | xv6-armv8/buddy.c:221-294 | Freeing what was just allocated restores the very same set of free blocks. |
| BuddySpec.EnoughMeansListed | xv6-armv8/buddy.c:221-242 | Some block of order k is wholly free exactly when a free block of order k or more exists. |
| BuddySpec.AllFreedIsAllLargest | xv6-armv8/buddy.c:260-294 | With nothing live the free blocks are exactly the pages. |
| BuddySpec.RunTiled | xv6-armv8/buddy.c:192-294 | Every run of kmalloc and kfree keeps the tiling and full coalescing. |
| Buddy.BitFlipped | xv6-armv8/buddy.c:115-189 | Flipping one bit of the mark array adds or removes exactly that block of the free set. |
| Buddy.MarkInserted | xv6-armv8/buddy.c:157-189 | Inserting a mark whose bitmap becomes non-zero keeps list and bitmaps in agreement for every order. |
| Buddy.MarkRemoved | xv6-armv8/buddy.c:115-154 | Removing a mark whose bitmap becomes zero keeps list and bitmaps in agreement for every order. |
| Buddy.HeadIsUsed | xv6-armv8/buddy.c:192-216 | The mark at the head of a list has a non-zero bitmap, so the search in get_blk finds a bit. |
| Buddy.EmptyList | xv6-armv8/buddy.c:221-242 | An empty list means that no block of that order is free. |
| Buddy.AddrBack | xv6-armv8/buddy.c:54-62 | Block number to address and back is the identity. |
| Buddy.Kmem.MarkBlk | xv6-armv8/buddy.c:157-189 | The block joins the free set; bitmaps, links and heads stay in agreement. |
| Buddy.Kmem.UnmarkBlk | xv6-armv8/buddy.c:115-154 | The block leaves the free set; bitmaps, links and heads stay in agreement. |
| Buddy.Kmem.GetBlk | xv6-armv8/buddy.c:192-216 | The lowest free block of the word at the head of the list is taken and its address returned; the panic for an empty mark is unreachable. |
| Buddy.Kmem.KfreeLocked | xv6-armv8/buddy.c:260-281 | Exactly the block becomes free and the free set is fully coalesced again. |
| Buddy.Kmem.KmallocLocked | xv6-armv8/buddy.c:221-242 | It fails exactly when no free block is large enough; otherwise the block is the first part of a smallest free block that is, and of that block exactly the upper halves of its splits stay free. |
| Buddy.Kmem.Kmalloc | xv6-armv8/buddy.c:245-258 | NULL is returned exactly when no aligned block of that size is wholly free. If a block of the order is free the result is one of them and the free set loses just it; otherwise a larger one is split, of the least order that has any, and the blocks left over are named one by one. |
| Buddy.SplitOne | xv6-armv8/buddy.c:232-239 | Giving back the upper half after a split never merges: it joins the blocks left over. |
| Buddy.CoversBytes | xv6-armv8/buddy.c:54-62 | The units of a block are its bytes: as many as its order says, from its address on. |
| Buddy.LiveApart | xv6-armv8/buddy.c:221-258 | In a tiled heap no two live blocks share a byte, none shares one with a free block, and all end inside the heap. |
| Buddy.Kmem.Kfree | xv6-armv8/buddy.c:285-294 | A live block becomes free; the tiling of the heap and full coalescing are kept. |
| Buddy.Kmem.Init2 | xv6-armv8/buddy.c:74-112 | The heap starts as free pages only, placed behind the marks. |
| Buddy.IndexFits | xv6-armv8/buddy.c:27-31 | Every mark index can be stored beside NIL exactly when 64 * ((len >> 17) + 1) is at most 0xFFFF. |
| Buddy.PagesFit | xv6-armv8/buddy.c:107-111 | The last page lies inside memory exactly when the end is page aligned. |
| Buddy.BitmapsDetermined | xv6-armv8/buddy.c:115-189 | Equal free sets mean equal bitmaps, word by word. |
| Buddy.KmallocKfreeRestores | xv6-armv8/buddy.c:221-294 | kmalloc followed by kfree of that block restores every bitmap. |
| FsLayout.InodeRoundTrip | xv6-armv8/fs.h:26-40 | An inode written into its block is read back field by field. |
| FsLayout.InodeFrame | xv6-armv8/fs.h:26-40 | Writing one inode leaves the others of the block unchanged. |
| FsLayout.InodeOfWith | xv6-armv8/fs.c:206-223 | After writing an inode to disk reading inodes gives the new one there and the old ones elsewhere. |
| FsLayout.UsedWithBit | xv6-armv8/fs.c:81-99 | Writing a bit of the free map changes the mark of that block and of no other. |
| FsSpec.ReserveKeeps | xv6-armv8/fs.c:50-78 | Marking and zeroing a free data block keeps ownership sound; no inode named it and no inode or other block changes. |
| FsSpec.AttachKeeps | xv6-armv8/fs.c:373-407 | Recording a reserved, unowned block in an empty slot keeps every block named at most once and every named block marked. |
| FsSpec.SyncKeeps | xv6-armv8/fs.c:206-223 | Writing the in-memory inode to disk changes no slot, no mark and no data block. |
| FileSpec.AllocExtends | xv6-armv8/fs.c:373-407 | Allocating a block into an empty slot changes no byte of any file and accounts for the one new mark. |
| FileSpec.AccountedTwice | xv6-armv8/fs.c:50-78 | Conservation composes: marks added over two steps are exactly the blocks gained over both. |
| FileSpec.MissingIsNeed | xv6-armv8/fs.c:373-407 | In a file without holes the blocks bmap has to allocate for the next piece are the difference between what the file costs with it and without it, its indirect block included. |
| FileSpec.AllocRoom | xv6-armv8/fs.c:50-78 | Each allocation takes exactly one block from those free below the log. |
| FsSteps.LogsStep | xv6-armv8/fs.c:510-517 | One round of writei logs its block, bitmap blocks exactly if the block is new, and the indirect block exactly if it gets an entry. |
| FsSteps.LogsCount | xv6-armv8/fs.c:491-526 | The distinct sectors a write logs, as a number: its blocks, one bitmap block if some are new, the indirect block if it gets entries, and none of them twice or equal to the block of the inode. |
| FsSteps.SafeLength | xv6-armv8/log.c:176-178 | Up to 2561 bytes written by one writei fit a log of LOGSIZE blocks at any offset of any file; one byte more does not. |
| FileSpec.SplicedBytes | xv6-armv8/fs.c:510-516 | Copying a piece into a mapped block changes exactly those bytes of that file and no byte of any other. |
| FileSpec.WrittenStep | xv6-armv8/fs.c:510-516 | One round of the loop extends the part of the write that is done by one piece, every byte of every file accounted for. |
| FileSpec.MappedStep | xv6-armv8/fs.c:379-400 | Mapping the block at the write position keeps the file free of holes, across the switch to the indirect block. |
| FileSpec.OverlayContent | xv6-armv8/fs.c:491-526 | When all pieces are stored the contents are the overlay of the old ones with the source. |
| TruncSpec.FreedStep | xv6-armv8/fs.c:81-99 | When the turn of a slot comes its block is still marked, and clearing the mark frees that slot alone. |
| TruncSpec.FreedAll | xv6-armv8/fs.c:414-444 | With every slot freed and the list cleared, ownership is sound again and no other inode has changed. |
| TruncSpec.FreedRoom | xv6-armv8/fs.c:414-444 | Freeing every slot of a file without holes gives back exactly what a file of its size costs. |
| Fs.Fs.FindFree | xv6-armv8/fs.c:59-75 | The scan of the free map stops at the lowest free block with its bitmap block locked, having released every other one. |
| Fs.Fs.Balloc | xv6-armv8/fs.c:50-78 | The block is the lowest one free. It is outside the log exactly when some block below the log is free, and is then marked and zeroed; the panic happens exactly when all are marked. The superblock, bitmap and data buffers are read one after the other and released. |
| Fs.Fs.Bmap | xv6-armv8/fs.c:373-407 | A mapped block is returned and nothing changes; otherwise it succeeds exactly when at least as many blocks are free below the log as slots are missing, fills those slots, takes that many blocks, and changes no byte of any file. |
| Fs.Fs.Ilock | xv6-armv8/fs.c:276-311 | The copy in memory is the inode on disk; the panic happens exactly for an inode not in use. |
| Fs.Fs.Iupdate | xv6-armv8/fs.c:206-223 | The inode on disk becomes the one in memory, with one logged sector. |
| Fs.Fs.LogWrite | xv6-armv8/log.c:171-202 | The list of calls, the header and the first panic are those of the calls so far; the logical disk is the start of the transaction with them replayed. |
| Fs.Fs.Writei | xv6-armv8/fs.c:491-526 | It rejects exactly a start beyond the end or an end beyond the largest file. It ends in a panic exactly when log_write has refused a call. Otherwise it completes exactly when the blocks free below the log are at least those the file lacks; then the file is its overlay with the source, without holes, equal in memory and on disk, exactly those blocks are taken, marks are accounted for, other inodes are untouched, no buffer stays locked, and only the listed sectors are used. As a transaction of its own on a disk with one bitmap block it completes exactly when also the count of sectors it logs is within the limit of the log, and panics only when it is not. |
| Fs.Fs.Readi | xv6-armv8/fs.c:458-487 | The clipped slice of the bytes is returned, with zeros in holes. The disk is left alone exactly if every block of the slice is mapped; otherwise blocks are allocated on the way, and outside a transaction a read returns exactly if all are mapped. |
| Fs.Fs.Bfree | xv6-armv8/fs.c:81-99 | The mark is cleared exactly if it was set; otherwise the panic. |
| Fs.Fs.Itrunc | xv6-armv8/fs.c:414-444 | Unless log_write panics, which as a transaction of its own on a disk with one bitmap block it does not in a log of three blocks or more, exactly the inode's own blocks lose their marks, it is empty in memory and on disk, other inodes are untouched, freeing a free block never happens, and a file without holes gives back exactly what it cost. |
| FsSteps.WrapsExactly | xv6-armv8/fs.c:471-473 | The 32-bit overflow test is exact. |
| File.SevenSectors | xv6-armv8/file.c:147-153 | A chunk of at most 1536 bytes at any offset touches at most seven sectors when one bitmap block covers the disk. |
| File.FitsTheLog | xv6-armv8/log.c:176-178 | Writes confined to seven sectors never find a ten-block log full. |
| Acts.OrderlyAt | xv6-armv8/fs.c:26-99 | In an orderly list of acts every bread is of a sector the caller does not hold, every log_write and brelse of one it holds, and nothing is logged while the superblock is held. |
| Acts.BuffersEnough | xv6-armv8/bio.c:61-94 | One buffer more than the sectors in use suffices at every moment of an orderly transaction, the buffers pinned by the log, the one being read and the one of the log block being written included. |
| Acts.LoggedPlusOne | xv6-armv8/bio.c:61-94 | If whatever a transaction holds while it takes a buffer is logged in the end, one buffer more than the sectors logged is enough at every moment. |
| Transactions.TxnOf | xv6-armv8/log.c:136-202 | A finished list of acts in which log_write never panicked is a transaction that the log accepts and that ends in the replayed disk. |
| Transactions.LeanIfLogged | xv6-armv8/bio.c:61-94 | An accepted transaction that keeps only what it logs needs no more than the ten buffers. |
| Transactions.CrashLands | xv6-armv8/log.c:128-202 | Power failing anywhere in a sequence of transactions, and in any recoveries after it, leaves the home sectors as before that transaction or after it. |
| File.ChunkAccepted | xv6-armv8/file.c:147-180 | A chunk of filewrite needs at most seven sectors of the log and at most eight of the ten buffers. |
| File.LoggedWithin | xv6-armv8/log.c:171-202 | The logged sectors are distinct and no more than the sectors written. |
| File.WriteChunk | xv6-armv8/file.c:163-180 | One transaction around writei: the chunk is stored whole exactly when the blocks free below the log suffice, with its logged writes accepted and replaying to the new disk and with at most eight buffers in use at any moment, or it is rejected with nothing changed. |
| File.FileWrite | xv6-armv8/file.c:131-188 | It returns n exactly when the file is writable, the write is in range and the blocks free below the log are at least those the file lacks; it runs out of blocks exactly when they do not suffice for the chunks in range; else it fails with the whole chunks that fit stored. What is stored is at the offset, which advances by as much; blocks are conserved; other files are untouched; no transaction overflows the log and no write comes back short. |
| File.CrashKeepsWholeChunks | xv6-armv8/file.c:155-184 | Power failing anywhere in the transactions of a filewrite, and in any recoveries after it, leaves the file sound and without holes with a whole number of chunks written, all earlier ones included, and every other file as it was. |
| Storage.Perform | xv6-armv8/log.c:136-202 | A whole transaction of one process, every bread, log_write and brelse of it in order, goes through the log and the cache: it never waits, nothing panics, the home sectors become the replayed writes, and the disk passes through exactly the crash images of the transaction. |
| Storage.Carry | xv6-armv8/log.c:70-202 | Any sequence of transactions carried out act by act: nothing waits or panics, and after every single disk write a crash would leave the home sectors of one of the disks between them. |
| Storage.ImageRecovers | xv6-armv8/log.c:128-161 | Any crash image of a transaction recovers to the home sectors before it or after it. |
| Storage.Persist | xv6-armv8/file.c:155-184 | The transactions of a filewrite, carried out by the log and the cache: after every single disk write a crash would leave the file sound with a whole number of chunks and every other file as it was, and at the end the whole write is on disk. |
| Storage.PersistCalls | xv6-armv8/log.c:70-202 | The transactions of a session of writei and itrunc carried out so: after every single disk write a crash would leave exactly what some number of whole calls make of the files, on a disk that is sound and has lost no block. |
| Volume.AnyLock | xv6-armv8/fs.c:276-311 | Which inode is locked makes no difference: slots, bytes and free blocks of a disk at rest are the same seen from any inode. |
| Volume.StepSound | xv6-armv8/fs.c:276-526 | A step that leaves one file sound and the others untouched leaves every file of the disk sound and changes one entry of the map from inodes to bytes. |
| Volume.CostUpdate | xv6-armv8/fs.c:373-444 | Replacing one file changes what all files cost together by the difference of the two costs. |
| Volume.BalancedAtHome | xv6-armv8/fs.h:4-9 | Disks that agree below the log hold the same files, equally sound and with the same blocks free. |
| Session.Perform | xv6-armv8/fs.c:276-526 | One writei or itrunc as a transaction on any inode of a balanced disk completes exactly when the files would still fit the data blocks and the sectors it logs the log; the other outcomes name the one that failed. Then the map of files changes as the operation says, every file is sound and without holes, free blocks and files together still fill the data region, and its acts are a transaction that the log accepts and the buffers suffice for. |
| Session.Run | xv6-armv8/fs.c:276-526 | Any sequence of writei and itrunc on any inodes: the calls that complete are the longest beginning along which the files keep fitting the disk and each call the log. The disks between them are linked by accepted transactions; on each, all inodes are sound, without holes and up to date, no block is lost, and the contents are those the operations give on a map from inodes to bytes. |
| Session.CrashKeepsWholeCalls | xv6-armv8/log.c:128-202 | Power failing at any sector write of any session, and in any recoveries after it, leaves a sound disk without lost blocks that holds what some number of whole calls make of the files, every earlier call included. |
| MkfsSpec.TakeView | xv6-armv8/tools/mkfs.c:266-284 | Taking the next block in order is what balloc does on the disk with its free map filled in. |
| MkfsSpec.EmptyMade | xv6-armv8/tools/mkfs.c:91-105 | The zeroed disk, with the blocks before the data region marked, is sound and holds only empty files. |
| MkfsSpec.EmptyOk | xv6-armv8/tools/mkfs.c:91-105 | On a disk without inodes ownership is sound however many further blocks are marked. |
| MkfsSpec.Appended | xv6-armv8/tools/mkfs.c:251-298 | Bytes stored behind the end of a file and its inode with the new size keep every file sound and add exactly those bytes to that file. |
| MkfsSpec.SuperRoundTrip | xv6-armv8/tools/mkfs.c:86-105 | The superblock reads back as the numbers it was made of. |
| MkfsSpec.Rounded | xv6-armv8/tools/mkfs.c:148-153 | Rounding up the size of the root directory leaves a hole exactly when the size was a multiple of a block. |
| MkfsSpec.LaidTotal | xv6-armv8/tools/mkfs.c:107-146 | The blocks an image takes are those of the directory by its length and of every file by its own. |
| Mkfs.Image.Ialloc | xv6-armv8/tools/mkfs.c:219-231 | The next inode is given out with its type and no bytes; nothing else changes. |
| Mkfs.Image.Iappend | xv6-armv8/tools/mkfs.c:251-298 | The bytes are added to the file and to no other, with sound ownership and every block accounted for; it stops exactly when the largest file is exceeded or the data blocks do not suffice. |
| Mkfs.Image.Balloc | xv6-armv8/tools/mkfs.c:233-247 | The free map written marks exactly the blocks given out, if one block of it covers them. |
| Mkfs.AddFile | xv6-armv8/tools/mkfs.c:120-146 | One more file from the command line appears in the root directory and with its bytes, exactly when its name has no slash, it is not too large, and inodes and blocks suffice. |
| Mkfs.FixRoot | xv6-armv8/tools/mkfs.c:148-153 | The root directory is filled up with zeros; the disk stays sound exactly when the directory did not end at a block boundary. |
| Mkfs.Format | xv6-armv8/tools/mkfs.c:60-158 | The image is made exactly when every file is storable and all fit. It then holds the superblock, the directory and the files, with their types, and exactly the blocks they take are marked; and it is sound, without holes and with every block accounted for, exactly when two more than the number of files is no multiple of 32. |
| Mkfs.Boot | xv6-armv8/tools/mkfs.c:60-158 | From such an image on, any sequence of writei and itrunc gives, disk by disk and linked by accepted transactions, the contents the operations make of the files of the image, as long as they fit disk and log. |
| Mkfs.BallocSpills | xv6-armv8/fs.c:50-78 | On an image whose files take all data blocks balloc must hand out the first block of the log. |
| Mkfs.FullImage | xv6-armv8/tools/mkfs.c:60-158 | There is such an image: six files of the largest size and one of 137 blocks. |
| Mkfs.HoleIsRead | xv6-armv8/fs.c:458-487 | On an image whose directory ends at a block boundary, reading on where its entries end, outside a transaction, never returns. |
| MkfsSpec.EntryOf | xv6-armv8/tools/mkfs.c:110-140 | Entry by entry: the name and inode number that the root directory has for the directory itself and for every file. |
| MkfsSpec.FoundInRoot | xv6-armv8/tools/mkfs.c:137-152 | In the finished directory the search for the name of a file stops at an entry with that name, at the own entry of the file exactly when no earlier one has the same first fourteen characters. |
| Mkfs.FindFile | xv6-armv8/tools/mkfs.c:120-152 | On every new image dirlookup of the name of a file finds an inode, and it holds the bytes of the file exactly under that condition on the names, also on an image whose directory ends in a hole. |
| Dir.SameName | xv6-armv8/fs.c:531-534 | namecmp is equality of the names up to a zero or the fourteenth character. |
| Dir.Lookup | xv6-armv8/fs.c:538-568 | The first entry in use with the name, or none exactly if there is none; the panics; and if all that is read on the way is mapped, the search returns and leaves the disk alone. |
| UmallocSpec.ReleaseKeeps | xv6-armv8/usr/umalloc.c:25-44 | free keeps the list ascending, without overlap or touching neighbours, and adds exactly the bytes of the block. |
| UmallocSpec.CanonicalList | xv6-armv8/usr/umalloc.c:25-90 | Two such lists over the same free bytes are equal: the list does not depend on the order of calls. |
| UmallocSpec.CarveCovers | xv6-armv8/usr/umalloc.c:74-85 | What malloc cuts off was free and is free no more; nothing else changes. |
| UmallocSpec.CarveSorted | xv6-armv8/usr/umalloc.c:74-85 | Cutting off the tail of a block, or all of it, keeps the list ascending and coalesced. |
| UmallocSpec.FreeUndoesMalloc | xv6-armv8/usr/umalloc.c:25-90 | Freeing a block right after malloc cut it restores the very same list. |
| UmallocSpec.JoinLinked | xv6-armv8/usr/umalloc.c:33-42 | Joining a block with its neighbour in memory yields the shorter circular list. |
| UmallocSpec.UnitsExact | xv6-armv8/usr/umalloc.c:69 | The units computed are the fewest whose body holds the request. |
| UmallocSpec.RequestExact | xv6-armv8/usr/umalloc.c:52-54 | sbrk, whose parameter is an int, is asked for as many bytes as morecore then frees exactly below 2^27 units. |
| UmallocSpec.LargestRequest | xv6-armv8/usr/umalloc.c:52-54 | A concrete failing request: 4294967295 bytes become 2^28 + 1 units and sbrk is asked for 16 bytes. |
| Umalloc.InOrder | xv6-armv8/usr/umalloc.c:30-32 | The two exit conditions of the search hold together exactly at the place where the block belongs. |
| Umalloc.Heap.FindPlace | xv6-armv8/usr/umalloc.c:30-32 | The search ends at the last block below the freed one, after fewer steps than there are blocks on the list. |
| Umalloc.ReleaseLinked | xv6-armv8/usr/umalloc.c:33-42 | The assignments of free, joined above, below, both or neither, build exactly the released list. |
| Umalloc.Heap.Free | xv6-armv8/usr/umalloc.c:25-44 | The live block becomes free; list, live blocks and core stay disjoint, ordered and balanced; the next search starts at the last free block below it. |
| Umalloc.Heap.Scan | xv6-armv8/usr/umalloc.c:74-89 | One trip around finds a block large enough exactly if there is one: the first after freep. |
| Umalloc.Heap.AddCore | xv6-armv8/usr/umalloc.c:46-61 | New core joins the list, which then has a block of at least that size; if nothing was large enough before, only the block with the new core is. |
| Umalloc.Heap.Malloc | xv6-armv8/usr/umalloc.c:63-90 | The block holds the request, was free or is new core, and overlaps nothing in use. It is the end of the first block behind freep that is large enough, or, with none, of the block that the new core has become part of; NULL exactly when nothing fits and sbrk refuses; one successful morecore is always enough; free and live units together are exactly what sbrk gave. |
| ProcSpec.StepKeeps | xv6-armv8/proc.c:179-311 | Every atomic step of fork, exit, wait, sleep, wakeup, kill, yield and the scheduler keeps the invariant. |
| ProcSpec.RunsSafe | xv6-armv8/proc.c:179-496 | In every state of every run a sleeper in wait has a child and no zombie child, every process but init has a live parent, pids in use differ and wait has returned no pid twice. |
| ProcSpec.ZombieIsReapable | xv6-armv8/proc.c:222-311 | No zombie is stranded: its parent is alive and not asleep in wait. |
| ProcSpec.ExitWaiting | xv6-armv8/proc.c:222-263 | After an exit whoever still sleeps in wait is neither the parent of the new zombie nor init with a zombie passed to it. |
| ProcSpec.ExitedAt | xv6-armv8/proc.c:240-258 | What exit does to each slot of the table. |
| ProcSpec.PidsChanged | xv6-armv8/proc.c:67-71 | allocproc hands out a fresh pid and wait retires the one it returns. |
| ProcSpec.FamilyAfterReap | xv6-armv8/proc.c:285-300 | A reaped zombie was the parent of nobody. |
| ProcSpec.CalmKeeps | xv6-armv8/proc.c:415-470 | A step that takes no child from a sleeper in wait and makes no zombie keeps all sleepers justified. |
| ProcSpec.BootInv | xv6-armv8/proc.c:117-149 | The table after userinit satisfies the invariant. |
| ProcSpec.WakesExactly | xv6-armv8/proc.c:453-470 | After a wakeup every process that slept on the channel is runnable and otherwise as it was, no other slot has changed, and nobody sleeps on the channel. |
| ProcSpec.SleeperStep | xv6-armv8/proc.c:415-496 | A sleeper sleeps on, on its channel, until a wakeup on that channel, a kill of it, or an exit that its wait is for; each of these makes it runnable at once. |
| ProcSpec.NoWakeupLost | xv6-armv8/proc.c:415-470 | In every run a process asleep on a channel at or before a wakeup on it has become runnable by the end of that wakeup, having slept on the channel without a break until then. |
| Proc.Ptable.Wakeup1 | xv6-armv8/proc.c:453-462 | Slot by slot: a process asleep on the channel becomes runnable with all else of it kept, every other slot is unchanged. |
| Proc.Ptable.PassToInit | xv6-armv8/proc.c:247-256 | The loop that wakes init once per zombie has the effect of moving all children and waking init if there was one. |
| Proc.Ptable.Exit | xv6-armv8/proc.c:222-263 | The lock-held part of exit is the exit step, and what it does to every slot is spelled out; only init panics. |
| Proc.Ptable.Wait | xv6-armv8/proc.c:267-311 | The first zombie child is reaped and its slot cleared if there is one; -1 exactly when there is none and no child or a kill; otherwise the caller sleeps on its own slot; each is the step of that name. |
| Proc.Ptable.AllocProc | xv6-armv8/proc.c:51-71 | The first unused slot, or none exactly when all are used. |
| Proc.Ptable.Fork | xv6-armv8/proc.c:179-217 | Fork is the sequence of its steps: the first unused slot becomes a runnable child of the caller with the next pid, or it is given back, or there is none. |
| Proc.Ptable.Kill | xv6-armv8/proc.c:474-496 | The first slot with the pid is marked and, if asleep, made runnable, and nothing else changes; -1 if there is none. |
| Proc.Ptable.Sleep | xv6-armv8/proc.c:415-440 | The caller is asleep on the channel and nothing else has changed; it is the sleep step. |
| Proc.Ptable.Yield | xv6-armv8/proc.c:385-391 | The caller is runnable again and nothing else has changed; it is the yield step. |
| Proc.Ptable.Schedule | xv6-armv8/proc.c:319-350 | The first runnable process from the given slot on runs, or there is none; it is the dispatch step. |
| PipeSpec.WriteKeeps | xv6-armv8/pipe.c:94-117 | A write region appends a prefix of its bytes in order and leaves every sleeper justified, provided a sleeping reader keeps its end open. |
| PipeSpec.ReadKeeps | xv6-armv8/pipe.c:119-146 | A read region takes the next bytes in order and leaves every sleeper justified. |
| PipeSpec.WriteExact | xv6-armv8/pipe.c:94-117 | A write region stores all it has exactly if there is room and then wakes the readers; otherwise it fills the pipe and sleeps, or fails with the read end closed. |
| PipeSpec.ReadExact | xv6-armv8/pipe.c:119-146 | A read region returns the next bytes unless the pipe is empty with the write end open: at most as many as asked for, fewer only if that empties the pipe, never none of a pipe with bytes in it. |
| PipeSpec.StepKeeps | xv6-armv8/pipe.c:71-146 | Every step of every call, interleaved in any way, keeps the invariant. |
| PipeSpec.RunsSafe | xv6-armv8/pipe.c:71-146 | In every interleaving the bytes read are a prefix of the bytes written, readers and writers are never both asleep, and a freed pipe has no call left on it. |
| PipeSpec.ReadersGetAll | xv6-armv8/pipe.c:119-146 | In every interleaving the readers together have been given exactly the bytes taken from the pipe, in order. |
| PipeSpec.ReadAdvances | xv6-armv8/pipe.c:134-142 | In every interleaving a read that asks for bytes and finds some takes some, is done, has all it asked for or all there was, and leaves no writer asleep. |
| PipeSpec.WriterStoresAll | xv6-armv8/pipe.c:94-117 | In every interleaving a write under way has stored a beginning of its bytes, each once, across all its sleeps; when it is done with the read end open it has stored them all. |
| Pipe.FullTest | xv6-armv8/pipe.c:100-108 | The full and empty tests on wrapping 32-bit counters are exact. |
| Pipe.CtrSlot | xv6-armv8/pipe.c:111 | A wrapped counter selects the same place of the ring as the true count. |
| Pipe.Pipe.WriteSome | xv6-armv8/pipe.c:94-117 | The ring buffer code of a write region appends a beginning of its bytes: all of them exactly if there is room, otherwise as many as fill the ring, and it does with the sleepers what the queue specification says. |
| Pipe.Pipe.ReadSome | xv6-armv8/pipe.c:119-146 | The ring buffer code of a read region returns the next bytes, at most as many as asked for and fewer only if the pipe is empty afterwards, exactly when it has bytes or no writer; it does with the sleepers what the queue specification says. |
| Pipe.Pipe.CloseEnd | xv6-armv8/pipe.c:71-91 | Closing an end wakes the other side and frees the pipe exactly when both ends are closed. |
| Grep.Match | xv6-armv8/usr/grep.c:71-81 | True exactly when some suffix of the text, or the text itself after ^, begins with a cut into one piece per item. |
| Grep.MatchHere | xv6-armv8/usr/grep.c:84-95 | True exactly when the text begins with a cut into pieces that match the items of the pattern one by one. |
| Grep.MatchStar | xv6-armv8/usr/grep.c:98-105 | True exactly when some run of the character is followed by a match of the rest. |
| Grep.BeginsSplit | xv6-armv8/usr/grep.c:84-105 | The existence of a cut is the existence of a first piece and a cut of what follows. |
| Grep.ItemsShown | xv6-armv8/usr/grep.c:84-95 | Reading a pattern as items loses nothing: writing the items gives the pattern back. |
| ShellRound.RoundTrip | xv6-armv8/usr/sh.c:328-447 | Any well-formed tree with at most nine words per command, written out with no more parentheses than it needs, parses back to itself. |
| ShellRound.Normalised | xv6-armv8/usr/sh.c:328-447 | Whatever the parser produces is well formed, and written out it parses to the same tree. |
| ShellGrammar.AcceptsExactly | xv6-armv8/usr/sh.c:328-447 | The parser accepts exactly the lines of the grammar: `|` binds tighter than `&`, which binds tighter than `;`, redirections stand anywhere in a command, at most nine words. Whatever form a line is given, the tree is the meaning of that form. |
| ShellGrammar.LineComplete | xv6-armv8/usr/sh.c:345-360 | Every form of the grammar, up to the end or a closing parenthesis, is read as its meaning and no further. |
| ShellGrammar.LineSound | xv6-armv8/usr/sh.c:345-447 | What has been read of a line is a form of the grammar and the tree is its meaning. |
| ShellGrammar.WrappedLayers | xv6-armv8/usr/sh.c:375-398 | The redirections of a command are the outer layers of its tree, the last one outermost, each with its own file, mode and descriptor. |
| ShellRound.CommandWithRedirections | xv6-armv8/usr/sh.c:416-447 | Words followed by any list of redirections, spaced in any way: the tree has them all in order around the command with those words. |
| ShellRound.BlockWithRedirections | xv6-armv8/usr/sh.c:400-414 | The same for a block followed by any list of redirections. |
| ShellRound.SpelledTokens | xv6-armv8/usr/sh.c:266-309 | Tokens written with any blanks that keep them apart are read back. |
| ShellRound.LineSpelled | xv6-armv8/usr/sh.c:266-309 | Every line is its tokens with some blanks: words are maximal and no character is lost. |
| Shell.GetToken | xv6-armv8/usr/sh.c:266-309 | The cursor code returns the token the grammar names; a word is a maximal run of word characters. |
| Shell.PeekAt | xv6-armv8/usr/sh.c:311-321 | The cursor moves past blanks and the answer is whether one of the characters follows. |
| Shell.ParseRedirs | xv6-armv8/usr/sh.c:375-398 | The redirections read are those of the grammar, or the panic for a missing file. |
| Shell.ParseExecAt | xv6-armv8/usr/sh.c:416-447 | What is read is a simple command or a block of the grammar and the tree is its meaning; the panics are those of the specification. |
| Shell.ParseBlockAt | xv6-armv8/usr/sh.c:400-414 | What is read is a block of the grammar with its redirections and the tree is its meaning; the panics are those of the specification. |
| Shell.ParsePipeAt | xv6-armv8/usr/sh.c:362-373 | What is read is a pipeline of the grammar and the tree is its meaning. |
| Shell.ParseLineAt | xv6-armv8/usr/sh.c:345-360 | What is read is a line of the grammar and the tree is its meaning; the cursor advances with every token. |
| Shell.NulTerminate | xv6-armv8/usr/sh.c:450-494 | Exactly the ends of the words of the tree become NUL. |
| Shell.TokensReadBack | xv6-armv8/usr/sh.c:450-494 | Every word read up to its NUL is exactly its token: no terminator falls inside another word. |
| Shell.ParseCmd | xv6-armv8/usr/sh.c:328-343 | A tree is returned exactly for the lines of the grammar, and it is their meaning; all its words read back from memory as their tokens. |

## Left out

- Device inodes in readi and writei, directories except for looking up a name, path names, link counts, ialloc, iget, iput and the inode cache: an inode is given, locked.
- The write of balloc into a block of the log region, and everything after it: the model stops there (`Spill`, `Halt`, `OutOfBlocks`) and says that no block below the log was free.
- Fs.Fs.Writei: how many sectors a call logs is given as a number for a transaction of its own on a disk with one bitmap block; in general its panic is tied to the calls recorded. When both the blocks and the log fall short it is not said which is noticed first.
- Fs.Fs.Ilock: waiting for a locked inode and a copy that is already in memory are not modelled.
- Session.Perform: stated for the geometry mkfs produces, a disk covered by one bitmap block and a log of LOGSIZE blocks, and for one process.
- Storage.Perform: one process at a time. That a filewrite never waits for a buffer and never runs out of them is shown with no other process holding any; with others about, bget waits or panics as stated for it.
- Mkfs.Image.Ialloc: an inode number beyond the table is a false result; what the code then writes is not described.
- Mkfs.Image.Iappend: the image after a block beyond the data region is not described.
- Mkfs.AddFile: inodes or blocks that do not suffice are a false result.
- Mkfs.Format: a formatter that hands out blocks or inodes beyond what the disk has is stopped there, as `Overrun` or by a false result, while the code goes on; unreadable files and failed writes of the image are not modelled.
- File.FileWrite: the log budget is stated for the geometry mkfs produces, a disk covered by one bitmap block and a log of LOGSIZE blocks; pipes and devices behind a file are not part of it.
- Log.Log.BeginTrans: a caller that goes to sleep tries again in a new call.
- Log.Log.ReadHead: requires a header count of at most LOGSIZE, as every header written by write_head has, and a free buffer.
- Log.Log.InstallTrans: requires that no other process holds a listed sector, where the code would wait for it, and a free buffer.
- Log.Log.CommitTrans: requires that no other process holds a logged sector, where the code would wait for it.
- Bio.Bcache.Bget: waiting for a busy buffer is the outcome `Asleep`; the repeated search after waking is a new call.
- Bio.Bcache.Brelse: requires what callers promise, that changed data has been passed to bwrite or log_write.
- Log.Log.RecoverFromLog: requires a header whose sectors are distinct and outside the log, as every header written by commit_trans is.
- Buddy.Kmem.Init2: requires memory small enough for link indices to fit beside NIL, the condition that Buddy.IndexFits shows to be exact.
- Umalloc.Heap.Malloc: after a request of 2^27 units or more has been granted nothing is claimed but the state before it (`Unbacked`).
- Umalloc: programs that write through a stale or foreign address, or call sbrk with a negative count, are outside the model.
- Proc.Ptable.Exit: closing files and dropping the working directory happen before the lock-held part and are not modelled; kernel stacks and page tables are not modelled either.
- ProcSpec.RunsSafe: runs end before the pid counter overflows an int.
- The scheduler's order: in the runs of ProcSpec any runnable process may be dispatched next; Proc.Ptable.Schedule says which one a scan finds.
- Dir.Lookup: taking a reference to the inode found is not modelled.
- What a process does after kill: only the state change is modelled.
- Shell.ParseExecAt: the tree of a command is built once its words and redirections are known, not by changing the exec node under its wrappers; the result is the same tree.
- The shell's execution of commands, its prompt loop and memory; the read loop of grep.
- Page tables, exec, traps, spinlock internals, devices, the console and kalloc.c.
- Fixed integer widths are written out where they matter: log header words, packed links, bitmaps, file offsets, pipe counters, the sbrk argument. Elsewhere integers are unbounded.
