# A verified model of the YOTOS kernel

YOTOS is a 32-bit x86 kernel in C. This project models the parts of it that keep other
programs' data safe, in the order in which they rest on each other, and proves what they
promise.

| files | what they model |
|---|---|
| `bytes.dfy`, `bits.dfy`, `cstring.dfy`, `collections.dfy` | little-endian words in byte buffers, single bits of a word, C strings, intervals and options |
| the files that begin with `fat_` | the FAT16 driver (in `fat_format.dfy` what it reads and writes, byte by byte): a disk is an array of 512-byte sectors; two FAT copies, a fixed root directory and cluster chains lie in it as in Microsoft's FAT specification 1.03, "Boot Sector and BPB", "FAT Data Structure", "FAT Directory Structure" |
| `vfs_node.dfy`, `vfs_path.dfy`, `vfs.dfy`, `open_file.dfy`, `shell.dfy` | nodes, paths and their components, the walk of `vfs_open` over a FAT volume, reading an open file, the shell's path helpers and its `cat` |
| `heap.dfy`, `kernel_heap.dfy` | the kernel heap: headers in memory, linked both ways, and the block list they stand for; what its callers hold |
| `pmm.dfy` | the bitmap of physical frames and its counter |
| `paging.dfy`, `vmm.dfy`, `frames.dfy` | physical memory as words, the hardware walk of 32-bit paging (Intel SDM volume 3A, section 4.3), the tables edited through the recursive window, and who owns which frame over a run |
| `usermem.dfy`, `elf.dfy`, `elf_format.dfy`, `process.dfy` | the bytes behind a process's pages, the ELF loader and its headers byte by byte (TIS ELF specification 1.2, book I, chapters 1 and 2), a process from creation to release |
| `exec.dfy` | the shell's `exec`, from a path on the disk to a process and back |
| `snake.dfy` | the game: body array, incremental screen, collision test |
| `volume_witnesses.dfy`, `memory_witnesses.dfy`, `image_witnesses.dfy`, `snake_witnesses.dfy` | real inputs for the shortfalls below, and states that meet the invariants |

Code that works by changing things step by step is kept as classes and methods with loops:
the volume, the heap, the bitmap, the memory manager, the process, the game. Each method is
proved against a function or a predicate on values, and the promises about whole runs are
lemmas about those.

## How the pieces fit

* **The volume.** `FatVolume.Sound(g, disk, own)` says that `own` gives every live entry
  the cluster chain it starts, that chains are in range, end-terminated and pairwise disjoint,
  that every live entry is in `own`, that every directory has its end marks together, and that
  "." and ".." lead to directories. Every call keeps it, whatever comes of the call.
  `FatVolume.WellFormed` adds that the clusters of every file reach its recorded size.
  `FatVolume.Accounted` is the set of clusters that are free or owned; a cluster that is
  neither is stray (`FatFiles.Stray`). A file's bytes are `FatFiles.FileAt`, and a run of calls
  of any kind and outcome is `FatRuns.IsRun`.
* **Paths.** `VfsPath.Fold` walks names through a lookup function; `FatLookup.FatFind` is
  that function for a sound volume. What a path leads to is a directory or a live file, so an
  opened node is a handle that reading and writing accept; `cat` and `exec` are proved from
  the path down to the bytes. Nodes, read buffers and processes all come from one kernel heap,
  so what these commands answer is a function of the disk, the heap's block list and the frames.
* **The heap.** `Heap.Canonical` says that the blocks tile the region and no two free blocks
  touch; `Heap.Linked` ties the headers in memory to that list.
* **Paging.** `Paging.Walk` is what the processor does with an address, `Paging.UserMayStore`
  whether it lets user mode store there, `Paging.Lookup` is the page map. `Vmm.PageAdded`, `Vmm.FrameLost` and `Vmm.PageRemoved` are the three things that
  can happen to it, and `FrameOwnership.Owns` is kept by each.
* **User memory.** `UserMemory.Peek` is the byte a process sees at an address;
  `UserMemory.Confined` says that an operation touched only certain pages, and
  `UserMemory.Stale` that a byte is still what its frame held when it was free. The loader and
  the process functions are proved with these alone.

## Where the code falls short of its promise

Each of these is proved as an exact condition, and an input for which it happens is built in
the witness files.

* A directory created under a name whose first byte is 0xE5 reads as deleted at once and its
  cluster is lost (`FatFs.CreateAccounts`; `VolumeWitnesses.LostDirectory`).
* When `kmalloc` fails inside the first write to an empty file, the cluster just taken belongs
  to no entry and is not free (`FatFiles.LostCluster`; `VolumeWitnesses.TakenInVain`). Only the
  open handle knows it: writing through the same handle again links it after all
  (`FatFiles.HeldIsPlain`); if the handle is closed first, the cluster stays lost.
* A write leaves a file whose size its clusters do not reach if and only if it starts behind
  everything the file could reach, that is, behind its own clusters and all the free ones
  together (`FatFiles.WriteFinished`; `VolumeWitnesses.PastTheEnd`). Nothing else suffers: the
  volume stays sound and every other file keeps its bytes.
* Some names that the 8.3 conversion accepts do not read back: a trailing dot, spaces at the
  end of a part, an extension that starts with a space (`FatNames.NameRoundTrip`;
  `VolumeWitnesses.TrailingDot`).
* `pmmngr_init` fills the bitmap by whole bytes: when the number of frames is no multiple of 8
  the count of used frames is right only if the bits left over happened to be set
  (`Pmm.Pmm.Init`; `MemoryWitnesses.OddFrame`).
* `vmm_alloc_page` returns success and loses its frame when that frame was the last one and a
  page table was missing (`Vmm.Vmm.AllocPage`; `MemoryWitnesses.LastFrameLost`); nor can page 0
  ever be told from a failure, so an image with a segment there is never loaded
  (`Elf.ElfLoad`; `ImageWitnesses.ZeroPage`).
* `elf_load` allocates the pages of every segment anew: a page that two segments share, or a
  segment and the stack, loses the earlier frame and all its bytes. Every byte that the last
  segment to take a page does not fill itself, and every byte of the stack, is what the frame
  held while it was free (`Elf.LoadedByte`, `Elf.CoveredByte`, `Process.Created`;
  `ImageWitnesses.LosesItsByte`).
* A process leaves pages mapped after `process_free` if and only if some page that its file
  takes is not among the first 64; for an image off the stack, if and only if the image has more
  than 60 pages (`Process.Conservation`, `Process.ListedExactly`; `ImageWitnesses.LeavesPages`).
* Besides page tables, which are never given back, each life of a process costs one frame for
  every page taken again and for every page left mapped: none if and only if its pages fit the
  list, no two segments share a page and none has a page of the stack
  (`Process.FrameConservation`, `Process.NothingLeaked`; `ImageWitnesses.SharingLeaks`).
* After food is eaten at the full length of 512 the old tail stays on the screen, unless the
  new food happens to be put on it (`Snake.PlaysDrawn`; `SnakeWitnesses.TailStays`).

`include/process.h:11` calls 0xBFFFF000 the lowest page of the user stack; the loop at
`kernel/process.c:49-59` allocates downwards from it, so it is the highest. The model follows
the loop.

## Model

| member | source | states |
|---|---|---|
| FatMount.FatInit | fs/fat16.c:646-679 | mounting succeeds exactly for bytes 55 AA at 510, 512 at 11 and a non-zero word at 22, and then keeps the fields at bytes 13 to 18 and 22 |
| FatMount.RegionsInOrder | fs/fat16.c:666-669 | FATs, root directory and data follow the reserved sectors one after another without gap or overlap, the root directory has room for every entry with less than a sector to spare, each cluster follows the one before it, and no address wraps |
| FatLayout.ClusterInData | fs/fat16.c:108-112 | every sector of every nameable cluster lies behind the FATs and the root directory and its 32-bit address does not wrap |
| FatLayout.ClusterInjective | fs/fat16.c:108-112 | no sector belongs to two clusters |
| FatTable.FatEntry | fs/fat16.c:35-42 | the bytes read are element `cluster` of the abstract link array |
| FatTable.FatSetEntry | fs/fat16.c:49-66 | the store law: exactly that element changes, no sector outside the FATs changes, and copies that agreed still agree |
| FatFormat.LinkBytes | fs/fat16.c:35-42 | the link of cluster c is the little-endian word at byte 2c of each FAT copy |
| FatFormat.FreeBytes | fs/fat16.c:80-84 | a cluster from 2 on is free exactly when its two bytes are zero |
| FatChain.ChainUnique | fs/fat16.c:278-292 | a start cluster determines its chain |
| FatFormat.ChainFollows | fs/fat16.c:278-292 | a chain goes from link to link until one is below 2 or at least 0xFFF8 |
| FatChain.ChainDistinct | fs/fat16.c:278-292 | a terminated chain visits no cluster twice |
| FatChain.ChainExtend | fs/fat16.c:544-550 | linking a new end cluster behind the last one makes the chain longer by exactly that cluster |
| FatChain.FatAllocCluster | fs/fat16.c:73-90 | hands out the least free cluster, marked as end of chain and nothing else changed, and reports 0 exactly when none is free |
| FatChain.FatFreeChain | fs/fat16.c:95-101 | on every in-range table, cyclic or not, ends and zeroes exactly the clusters reachable from the start |
| FatChain.FreeingStep | fs/fat16.c:96-100 | why it ends: each turn leaves one non-zero entry fewer, or meets a zero entry and is the last |
| FatChain.ReachableIsChain | fs/fat16.c:95-101 | what is reachable from the head of a terminated chain is that chain |
| FatData.ReadCluster | fs/fat16.c:108-112 | the buffer holds the cluster's sectors in order |
| FatData.ContentUpdate | fs/fat16.c:565-567 | rewriting one cluster of a chain splices the chain's content at that cluster |
| FatFormat.ContentByte | fs/fat16.c:108-112 | which byte of which sector of the disk each byte of a chain is |
| FatRead.ContentFits32 | fs/fat16.c:251-284 | no chain is so long that a 32-bit offset into it could wrap |
| FatRead.SkipClusters | fs/fat16.c:266-270 | stops early exactly when the chain has fewer than `count` clusters; otherwise it has arrived at cluster number `count`, or at the end mark behind the last one |
| FatRead.ReadStep | fs/fat16.c:278-292 | one turn copies the next stretch of the content, never more than was asked for, and moves to the next cluster if more is wanted |
| FatRead.VfsRead | fs/fat16.c:246-296 | for any terminated chain: returns max(0, min(size, end - offset)) where the end is that of the file or of its clusters, whichever comes first; the buffer receives that slice and is otherwise untouched; -1 exactly when memory is short and the walk along the chain did not give up before |
| Bytes.AsInt32Is | fs/fat16.c:295-295 | a count that an `int` cannot hold is returned less 2^32 |
| FatNames.Format83 | fs/fat16.c:120-139 | the buffer holds the trimmed base, and after a dot the trimmed extension if it does not start with a space |
| FatNames.FormatName83 | fs/fat16.c:147-175 | accepts exactly a base of 1 to 8 and an extension of at most 3 bytes around the first dot, and then yields both in upper case, padded |
| FatFormat.AcceptedNames | fs/fat16.c:160-161 | which names those are, in the bytes of the name |
| FatNames.NameRoundTrip | fs/fat16.c:120-175 | an accepted name reads back as itself up to case if and only if neither part ends in a space and a dot is followed by an extension that does not start with one |
| FatNames.FieldsRoundTrip | fs/fat16.c:120-175 | every upper-case, well-padded pair of fields with a non-empty, dot-free base is recovered from its text |
| CString.Strcasecmp | klibc/string.c:43-51 | 0 exactly when the two texts agree up to the case of ASCII letters |
| FatFormat.SameTextLetters | klibc/string.c:43-51 | that is, byte for byte equal or a small and its capital letter |
| CString.Strlcpy | klibc/string.c:32-41 | copies what fits, terminates it, touches nothing else, returns the source's length |
| CString.FittingIs | klibc/string.c:32-41 | what fits is all of the source, or its first size - 1 bytes |
| FatDir.DirSectorLba | fs/fat16.c:307-329 | the n-th sector of the root or of a subdirectory's chain, and 0 exactly past its end |
| FatDir.DirSectorOnDisk | fs/fat16.c:307-329 | that sector lies on the disk behind the FATs, in the right cluster for a subdirectory and before the data for the root |
| FatDir.VfsReadDir | fs/fat16.c:342-373 | the index-th entry of the filtered listing, and nothing from its length on |
| FatFormat.ReadDirBytes | fs/fat16.c:342-373 | in bytes: the answer is for the slot, before the first that begins with 0, whose first byte is neither E5 nor a dot and whose attributes are not 0F and have bit 3 clear, with exactly index such slots before it; its name, its cluster at 26, and 2 or 1 by bit 4 |
| FatDir.VfsFindDir | fs/fat16.c:391-431 | a new node for the first matching entry before the end mark, with its place on disk, and null exactly when there is none or memory is short |
| FatFormat.FindDirBytes | fs/fat16.c:391-431 | in bytes: the slot found is the first before the end mark that is not deleted, no long-name piece and no label, and whose name and extension read as the name up to the case of letters |
| FatFormat.NodeBytes | fs/fat16.c:411-429 | the node has that slot's name, its cluster at 26, its size at 28 unless it is a directory, and its place |
| FatDir.NameMatch | fs/fat16.c:217-221 | an entry matches when its text and the name agree up to case |
| FatCreate.WriteDirEntry | fs/fat16.c:182-214 | fills the first free slot with the 8.3 fields and nothing else, and fails, changing nothing, exactly when the name does not fit or no slot is free |
| FatFormat.NewEntryBytes | fs/fat16.c:199-208 | all 32 bytes of the slot: name, extension, attributes, 14 zeros, cluster, size |
| FatFormat.NewEntryFields | fs/fat16.c:147-175 | what is before and behind the first dot, in capitals, filled up with spaces; attributes 20 for a file, 10 and the cluster for a directory |
| FatFormat.FreeSlotBytes | fs/fat16.c:197-198 | the slot taken is the first that begins with 00 or E5 |
| FatCreate.InitDirCluster | fs/fat16.c:460-490 | the cluster holds ".", ".." and zeros, and no other sector changed |
| FatFormat.DotBytes | fs/fat16.c:464-488 | its first sector, all 512 bytes |
| FatCreateKeeps.FillInserts | fs/fat16.c:182-214 | filling the first free slot of a tidy directory inserts exactly that entry into the listing and keeps the others in order |
| FatCreateKeeps.MadeKeeps | fs/fat16.c:451-505 | the volume stays sound: chains disjoint, every live entry owned, directories tidy, "." and ".." leading to directories |
| FatCreateKeeps.MadeAccounts | fs/fat16.c:451-505 | the free and owned clusters are those of before, less that of a directory whose entry reads as deleted |
| FatCreateKeeps.MadeDir | fs/fat16.c:182-214 | the directory has the new entry at its first free slot; every other directory keeps all its entries |
| FatWrite.ClusterForWrite | fs/fat16.c:541-553 | walks to cluster idx, growing the chain by free clusters as far as needed; it fails exactly when the chain is still too short and no cluster is free |
| FatWrite.WrittenPatch | fs/fat16.c:556-569 | patching one chunk into its cluster extends what has been written to the chain by exactly that chunk |
| FatWrite.WriteLoop | fs/fat16.c:536-570 | the chain, grown from free clusters only, holds a prefix of the buffer at the offset, nothing off the chain changed, and the prefix is short only if the disk is full |
| FatWrite.NoWrap | fs/fat16.c:537-575 | the running 32-bit offset never wraps |
| FatWrite.VfsWrite | fs/fat16.c:517-586 | all four outcomes: nothing asked or no first cluster, no memory with or without a first cluster taken, and written as far as there was room with node and entry in agreement |
| FatFormat.LocationBytes | fs/fat16.c:578-583 | of the entry a write changes bytes 26 to 31, the first cluster and the size |
| FatWriteKeeps.WriteKeeps | fs/fat16.c:517-586 | the volume stays sound, wherever the write started and however much of it was stored |
| FatWriteKeeps.WriteAccounts | fs/fat16.c:517-586 | the same clusters are free or owned as before |
| FatWriteKeeps.WriteDir | fs/fat16.c:578-583 | no directory entry changes its name, extension or attributes |
| FatFs.CreateFile | fs/fat16.c:498-502 | succeeds exactly when the name fits and a slot is free; otherwise the disk is untouched |
| FatFs.CreateDir | fs/fat16.c:455-497 | succeeds exactly when also a cluster is free; a failed mkdir leaves every link of the FAT as it was |
| FatFs.VfsCreate | fs/fat16.c:451-505 | succeeds exactly when the name fits, a slot is free and, for a directory, a cluster is free; the volume stays sound, and well formed if it was, either way; the node is the one lookup finds |
| FatFs.CreateAccounts | fs/fat16.c:451-505 | no cluster is lost if and only if it is a file or the name does not begin with 0xE5; otherwise exactly the one taken |
| FatFs.CreateLists | fs/fat16.c:451-505 | the listing gains exactly one entry and keeps the rest in order; nothing for a name that begins with 0xE5 |
| FatFs.CreateFinds | fs/fat16.c:182-221 | a name that was not there before is found after the create if and only if it reads back as itself and does not begin with 0xE5, and then at the slot just filled |
| FatFs.NewDirParent | fs/fat16.c:481-488 | ".." looked up in a new directory carries the parent's inode |
| FatFiles.CreatedHandle | fs/fat16.c:451-505 | the node that a create returns is a handle of the new file, which is empty |
| FatFiles.WriteFile | fs/fat16.c:517-586 | all outcomes on a sound volume: refused, with nothing changed; out of memory, with nothing changed or the handle holding the one cluster taken; or done, with a sound volume, every other file's bytes and every cluster kept, handle and entry in agreement, and the bytes rewritten if and only if the write started within the file's reach, whether its clusters reached its size before or not |
| FatFiles.WriteFinished | fs/fat16.c:536-583 | after a write of at least one byte that started within the file's own and all the free clusters the data stand at the offset and every other old byte is kept; after one that started behind them all the old bytes are kept; if the clusters reached the size before, they do so afterwards, and the volume is well formed, exactly in the first case, and then the file is patched |
| FatFiles.PatchedSplice | fs/fat16.c:517-586 | for a write that starts inside the file, patched means old[..offset] + data + rest of old |
| FatFiles.LostCluster | fs/fat16.c:525-531 | the first cluster taken before memory ran out, and no other, is neither free nor owned afterwards; every file keeps its bytes |
| FatFiles.HeldIsPlain | fs/fat16.c:524-529 | a second write through that handle, together with the first, is one write to the file as it was before both |
| FatFiles.ReadFile | fs/fat16.c:246-296 | reads the slice of the file's abstract bytes, also when its clusters do not reach its size |
| OpenFile.ReadChunk | fs/fat16.c:246-296 | a read of a live file never brings more than asked, only bytes of the file, and all that is there unless memory is short |
| OpenFile.ReadBuffered | fs/fat16.c:272-294 | with the cluster buffer from the kernel heap: all that is there if the heap has room for a cluster, nothing otherwise, and the heap as before |
| FatRuns.RunKeeps | fs/fat16.c:451-586 | over every run of creates and writes, whatever comes of each: chains disjoint, terminated and in range, the FAT copies in agreement, and every cluster free, owned or lost, one of the three, as at the start |
| FatRuns.RunAccounts | fs/fat16.c:451-586 | from a start that has lost nothing, the free and owned clusters are those of the start if and only if none is lost now, and none is when no call leaked |
| FatRuns.RunCovers | fs/fat16.c:451-586 | from a well-formed start the volume is well formed if and only if no write has started behind what its file could reach |
| FatRuns.RunKeepsFile | fs/fat16.c:451-586 | over every run, whatever comes of each call, a file keeps its bytes until somebody writes to it |
| FatLookup.LookUpKnown | fs/fat16.c:391-431 | what finddir finds on a sound volume is a directory of the volume or a live file |
| FatLookup.FoldKnown | fs/vfs.c:72-91 | so is whatever a path leads to, through "." and ".." too |
| Vfs.Vfs.Finddir | fs/vfs.c:127-132 | a new open node, in a block of the kernel heap, for the entry that FAT lookup finds in the directory; nothing, and the heap as before, when there is no entry or no room |
| Vfs.Vfs.Close | fs/vfs.c:99-104 | an open node is closed and its block given back; the root is never freed |
| Vfs.Vfs.Open | fs/vfs.c:58-94 | the fold of FAT lookup over the components, if the heap has room for the nodes in turn; every node met is closed exactly once, the root never, only the result stays open, and it is a directory or a live file; otherwise nothing is open that was not and the heap is as before |
| KernelHeap.FirstBackFits | kernel/kheap.c:28-77 | two blocks of one size taken and the first given back: the first place is again the first that fits |
| KernelHeap.NextTurn | fs/vfs.c:72-91 | so a walk that closes each directory once it has the next node needs room for two nodes at most, however long the path, and its nodes take turns in two places |
| VfsPath.TakeComponent | fs/vfs.c:73-81 | one component of at most 127 bytes, and the path behind its slash |
| VfsPath.SplitJoin | fs/vfs.c:72-91 | the components of names joined by slashes are those names |
| VfsPath.PathNames | fs/vfs.c:63-78 | so are those of the path with a slash (2F) in front |
| VfsPath.LongName | fs/vfs.c:74-75 | a stretch without a slash is one component up to 127 bytes, and is cut there |
| VfsPath.FoldAppend | fs/vfs.c:72-91 | walking a concatenation is walking the second part from where the first ends |
| Shell.OpenIsLookupInParent | shell/builtins.c:70-90 | opening an absolute path is looking its base up in its opened parent |
| Shell.PathResolve | shell/builtins.c:42-60 | the absolute path that the argument stands for, cut to the buffer |
| Shell.ResolvedNames | shell/builtins.c:42-60 | a relative path leads on from the current directory, an absolute one from the root |
| Shell.PathParentAndName | shell/builtins.c:70-90 | what is before and behind the last slash, each cut to its buffer |
| Shell.Cat | shell/builtins.c:161-169 | ends, and prints the whole file exactly once if the heap has room for a cluster, otherwise nothing |
| Shell.CmdCat | shell/builtins.c:150-173 | from a path and the heap's block list to the answer: not found, a directory, or the bytes of the file it leads to, exactly when it should; every node opened is closed and the heap is as before |
| Heap.Heap.constructor | kernel/kheap.c:20-24 | one free block spans the region |
| Heap.Heap.Kmalloc | kernel/kheap.c:28-51 | first fit: adds one live block that was not live; 0 exactly when no free block is large enough; the block is cut to the size asked for, with a free block behind it, if it has more than 16 bytes to spare, and else is given whole |
| Heap.RoomBehind | kernel/kheap.c:31-47 | if the first block that fits n bytes has k more and 16 for a header, then after kmalloc(n) there is room for kmalloc(k) |
| Heap.Heap.Kfree | kernel/kheap.c:54-77 | removes exactly the named live block and leaves headers and list in canonical form |
| Heap.Heap.Take | kernel/kheap.c:31-47 | the block found is handed out, split when at least one byte is left over; the split test cannot wrap |
| Heap.Heap.CoalesceNext | kernel/kheap.c:62-68 | a free right neighbour is swallowed, with both links repaired |
| Heap.Heap.CoalescePrev | kernel/kheap.c:70-76 | the block is swallowed by a free left neighbour, with both links repaired |
| Heap.AllocatedLive | kernel/kheap.c:31-47 | allocation adds exactly one live block, which was not live |
| Heap.FreedKeeps | kernel/kheap.c:54-77 | freeing keeps tiling and coalescing and removes exactly one live block |
| Heap.CanonicalUnique | kernel/kheap.c:28-77 | the block list is a function of the set of live blocks alone |
| Heap.RunCanonical | kernel/kheap.c:14-77 | over every run: the blocks tile the region and no two neighbours are both free |
| Heap.BalancedRunRestores | kernel/kheap.c:28-77 | whenever the same blocks are live, the list is the same, whatever happened in between |
| Heap.AllFreedIsInitial | kernel/kheap.c:54-77 | with everything freed there is the single initial block |
| Heap.FreeUndoesMalloc | kernel/kheap.c:28-77 | freeing what was just allocated is the identity on the list |
| Heap.LiveDisjoint | kernel/kheap.c:28-77 | live payloads lie in the region and never share a byte |
| Pmm.Pmm.Init | kernel/pmm.c:85-94 | the frames of whole bitmap bytes are in use, the bits left over are as before; the counter is right if and only if those were set |
| Pmm.Pmm.MmapTest | kernel/pmm.c:62-65 | bit f % 32 of word f / 32 is set exactly for a used frame |
| Pmm.Pmm.FirstFree | kernel/pmm.c:69-82 | the least free frame among the whole words, -1 exactly when there is none |
| Pmm.Pmm.InitRegion | kernel/pmm.c:98-110 | frees exactly the frames of the region, overlapping or not, with the counter right |
| Pmm.Pmm.DeinitRegion | kernel/pmm.c:114-124 | takes exactly the frames of the region, overlapping or not, with the counter right |
| Pmm.Pmm.AllocBlock | kernel/pmm.c:127-141 | takes the least free frame, every frame below it being in use, and fails exactly when none of the whole words has a clear bit |
| Pmm.Pmm.FreeBlock | kernel/pmm.c:143-151 | gives back exactly one used frame |
| Paging.WalkIsLookup | kernel/vmm.c:35-63 | the processor reaches exactly what the page map says |
| Paging.UserPageOpen | kernel/vmm.c:51-56 | where page and directory entry both have the writable and the user bit the processor lets user mode store |
| Paging.DirectoryWindow | kernel/vmm.c:39-39 | an access at 0xFFFFF000 + 4i walks to word i of the directory |
| Paging.TableWindow | kernel/vmm.c:59-59 | an access at 0xFFC00000 + 4096 pd + 4j walks to word j of table pd |
| Paging.StoreEntryAt | kernel/vmm.c:60-60 | a store into a table updates the page map at one page only |
| Paging.NewTable | kernel/vmm.c:43-50 | a zeroed table in an empty slot maps nothing and disturbs no mapping |
| Vmm.Vmm.EnsureTable | kernel/vmm.c:42-56 | finds or builds the table, fails exactly when it is missing and no frame is left, changes no mapping, and closes no directory entry to user mode; every entry is writable |
| Vmm.Vmm.MapPage | kernel/vmm.c:35-63 | updates the page map at one page, with exactly the bits of the flags and the present bit, and opens the directory entry to user mode when they ask for it; silently does nothing exactly when no frame is left for a missing table; the directory still names itself |
| Vmm.Vmm.AllocPage | kernel/vmm.c:67-72 | backs the page with the least free frame, open to user mode if asked, or returns 0 exactly when there is none, or loses the frame exactly when it was the last and a table was missing |
| Vmm.Vmm.UnmapPage | kernel/vmm.c:75-91 | deletes one page from the map and frees exactly its frame; an unmapped page is left alone |
| Vmm.Vmm.EarlyIdentityMap | kernel/vmm.c:94-110 | one more page is mapped to itself; only the first takes a frame |
| Vmm.Vmm.Init | kernel/vmm.c:123-134 | the directory names itself, pages 1 to 1023 map to themselves, nothing beyond is mapped, two frames have been taken |
| FrameOwnership.Boot | kernel/vmm.c:123-134 | after vmm_init every used frame is reserved, the directory or the one table, so every run of allocations starts in an owning state |
| FrameOwnership.AddOwns | kernel/vmm.c:67-72 | an allocated page gets a frame nobody owned; a frame it had before stays in use and backs nothing |
| FrameOwnership.LoseOwns | kernel/vmm.c:44-45 | a frame lost for want of a table stays used and backs nothing |
| FrameOwnership.DropOwns | kernel/vmm.c:75-91 | unmapping gives back exactly the page's frame |
| FrameOwnership.RunOwns | kernel/vmm.c:67-91 | over every run no frame backs two pages or is both a table and a page, and every owned frame is in use |
| FrameOwnership.RunCount | kernel/vmm.c:67-91 | over every run the used count is reserved + directory + tables + mapped pages |
| UserMemory.StoreKeeps | kernel/elf.c:58-60 | a byte stored in a process's page changes that byte and no other byte, mapping or table |
| UserMemory.ByteIs | kernel/elf.c:58-60 | byte k of a word in memory is the k-th from its low end |
| UserMemory.StoreUser | kernel/elf.c:58-60 | the store succeeds exactly on a mapped page; otherwise it faults and nothing changed |
| UserMemory.StoreRing3 | kernel/process.c:66-71 | so does a store in user mode, checked by the processor: every page of a process is writable and open to it |
| UserMemory.OpenToUser | kernel/elf.c:39-39 | a page of a process is writable and open to user mode at every address |
| UserMemory.AddConfined | kernel/vmm.c:67-72 | making room for a page, mapped or not, moves no byte of the others |
| UserMemory.AllocUser | kernel/vmm.c:67-72 | for a page of the process or an unmapped one: 0 exactly as `vmm_alloc_page` says, else a new frame behind the page, with the bytes it held while free, or a frame lost, which happens to no page whose table has another page; each success takes exactly one frame more |
| UserMemory.StaleKept | kernel/vmm.c:67-72 | a byte that nobody has written since its frame was free stays so while its page is not touched |
| UserMemory.DropConfined | kernel/vmm.c:75-91 | taking a page away moves no byte of the others |
| Elf.MapSegment | kernel/elf.c:34-45 | exactly the pages that the segment touches are allocated, anew if need be, and listed as far as there is room; one frame is taken for each |
| Elf.PagesTouched | kernel/elf.c:35-36 | the pages between the rounded ends of a segment are those that hold one of its bytes |
| Elf.CopySegment | kernel/elf.c:47-65 | the file bytes arrive in place however the reads are cut short; with room for a read buffer it refuses only a segment whose bytes the file does not have; it faults only on a page without a frame |
| Elf.LoadSegment | kernel/elf.c:34-73 | the segment's file bytes, then zeros, each on a mapped page; every other byte of its pages is what the frame held while free; nothing outside its pages changed |
| Elf.ShownKept | kernel/elf.c:24-74 | a segment keeps its bytes on every page that nothing has touched since |
| Elf.NextLoaded | kernel/elf.c:24-74 | loading one segment covers those before it on the pages they share and disturbs them nowhere else |
| Elf.TakenInImage | kernel/elf.c:38-45 | the pages taken are those of the segments so far |
| Elf.ApartTakenOnce | kernel/elf.c:38-45 | no page is taken twice if and only if no two segments share a page |
| Elf.ElfLoad | kernel/elf.c:8-77 | a non-zero result means: an x86 executable whose every PT_LOAD segment is in memory but for pages that a later one shares, whose pages are exactly those taken and listed, each with a frame; as many frames more are in use or lost as pages were taken; a file that can never be loaded (no executable, a header or bytes missing, page 0, entry 0) is always refused, and so is every file when the heap has no room for a read; any other refusal means that no frame is left; in every case nothing outside the image's pages changed |
| Elf.LoadedByte | kernel/elf.c:47-73 | on a page that neither a later segment nor the stack shares, byte k of a segment is file byte p_offset + k below p_filesz and zero from there to p_memsz; with page-disjoint segments that is every page off the stack |
| ElfFormat.LoadedWords | kernel/elf.c:8-77 | the same over the bytes of the file: for all fourteen fields of the ELF header and all eight words of program header i, encoded in their order |
| ElfFormat.HoldsBad | kernel/elf.c:28-58 | which program headers keep a file from ever being loaded, in their words |
| ElfFormat.HeaderReads | kernel/elf.c:12-22 | which ELF headers are accepted, and what is taken from them |
| Elf.CoveredByte | kernel/elf.c:38-73 | on the same page every byte outside the segment, whatever an earlier one had put there, is what the page's frame held before the load, when it was free |
| Elf.LastToTake | kernel/elf.c:24-45 | every page of the image has a segment that took it last, to which the two apply |
| Process.AllocProcess | kernel/process.c:34-40 | structure and kernel stack are two new live heap blocks exactly when the heap has room for both; otherwise the heap is as before |
| Process.AllocStack | kernel/process.c:49-59 | the four stack pages, top down, are allocated, over the image if it has them, and listed as far as there is room; on success all four have frames, since a frame lost for the first page is the last one and the second page is refused; none is cleared |
| Process.ProcessCreate | kernel/process.c:33-64 | a process with its image, a stack whose every page has a frame, page list and two heap blocks, and its stack pointer at BFFFFFFC, the last word of the stack, where and below which user mode may store; only if the heap has room for the two and then for a read, and the file can be loaded; then a refusal means that no frame is left; on every refusal the heap's block list is exactly what it was |
| Process.CreatedDroppable | kernel/process.c:42-58 | every address on a new process's list is a page with a frame |
| Process.ProcessFree | kernel/process.c:73-79 | every listed page and no other is unmapped, the tables stay, both heap blocks are given back |
| Process.Conservation | kernel/process.c:33-79 | create, run, free restores the page map, and the owners of pages, if and only if every page that the file takes is among the first 64 |
| Process.ListedExactly | kernel/process.c:42-58 | for every file: they are whenever the image takes at most 60 pages, and for an image off the stack only then |
| Process.FrameConservation | kernel/process.c:33-79 | for every file: no frame comes free that was in use, and the count is off by exactly the tables built, the pages taken again and the pages not listed |
| Process.NothingLeaked | kernel/process.c:33-59 | besides tables nothing is lost if and only if the file's pages fit the list, no two segments share a page and none has a page of the stack |
| Process.HeapConservation | kernel/process.c:77-78 | once both blocks are given back the heap's block list is what it was |
| Process.RunProgram | kernel/process.c:66-71 | a run of byte stores faults exactly at a page without a frame; every byte holds what was stored there last; page map and used frames are what they were |
| Process.FootprintMapped | kernel/process.c:42-66 | every page of a created process has a frame, so it never faults on its own pages |
| Process.RunAndFree | kernel/process.c:66-79 | a created process runs all its stores, every byte holding what was stored there last, and is freed: the heap's list is what it was before the create, and all that `Conservation` and `FrameConservation` say holds |
| ExecCommand.CmdExec | shell/builtins.c:328-346 | from a path on the disk to a process and back, on one heap that holds the open node, the process and the read buffer: not found and not a file exactly when it should; exited only if with the node open the heap has room for the process and a read and the file is a program, and failed only if one of these is missing or no frame is left; what ran was made of the bytes of the file at the path and ran to its end; every node closed, the heap list as before, and all that `Conservation` and `FrameConservation` say of the page map and the frames |
| VolumeWitnesses.FormattedWellFormed | fs/fat16.c:646-679 | a volume that fits its disk and has a blank root directory is well formed |
| VolumeWitnesses.LostDirectory | fs/fat16.c:451-497 | mkdir of the name E5 41 on a blank volume loses a cluster |
| VolumeWitnesses.PastTheEnd | fs/fat16.c:536-583 | one byte written at 254 * 512 + 1 on a disk of 254 one-sector clusters leaves a file its clusters do not reach |
| VolumeWitnesses.TakenInVain | fs/fat16.c:523-531 | a first write out of memory leaves a cluster that only the handle knows |
| VolumeWitnesses.TrailingDot | fs/fat16.c:120-175 | a name with a trailing dot is accepted and reads back as another |
| MemoryWitnesses.LastFrameLost | kernel/vmm.c:67-72 | on a machine of 64 frames, three of them usable, the first allocation beyond the first table succeeds and backs nothing |
| MemoryWitnesses.OddFrame | kernel/pmm.c:85-94 | on a machine of 33 frames 33 are counted as used and frame 32 is free |
| ImageWitnesses.SharesItsPage | kernel/elf.c:34-45 | a loadable file of two segments on one page, which is taken twice |
| ImageWitnesses.LosesItsByte | kernel/elf.c:34-65 | wherever it is loaded, the byte of its first segment is gone: in its place is what the frame held while free |
| ImageWitnesses.SharingLeaks | kernel/process.c:33-79 | whoever runs it loses one frame for good |
| ImageWitnesses.TakesTooMany | kernel/process.c:42-58 | a loadable file that asks for 61 pages |
| ImageWitnesses.LeavesPages | kernel/process.c:42-79 | whoever runs it leaves pages mapped |
| ImageWitnesses.ZeroPage | kernel/elf.c:38-42 | a whole and well-formed file with a segment on page 0, which can never be loaded |
| SnakeWitnesses.TailStays | user/snake.c:210-219 | a snake of 512 cells, faithfully drawn, eats and leaves its tail on the screen |
| Snake.SteerAll | user/snake.c:175-183 | whatever keys wait, the direction stays a unit step |
| Snake.OneKey | user/snake.c:175-192 | where the head goes after one key |
| Snake.SteerConcat | user/snake.c:175-183 | keys are read one after the other |
| Snake.SteerQuits | user/snake.c:182-182 | the game is left exactly when there is a q among them |
| Snake.MovedDistinct | user/snake.c:194-208 | the moved body has no cell twice if and only if the head misses all cells but the tail, and the tail too when the snake grows |
| Snake.FreeCell | user/snake.c:129-140 | however long the snake, there is a cell for the food |
| Snake.Game.HitsBody | user/snake.c:194-198 | the collision test sees exactly the cells other than the tail |
| Snake.Game.Shift | user/snake.c:205-208 | every cell moves back one slot and the head comes in front |
| Snake.Game.Tick | user/snake.c:175-219 | one turn: quit, over or playing on exactly when it should, by the walls at columns 1 and 78 and rows 2 and 22 and by the body; body, food, score, speed and screen after it, cell 80 y + x being row y, column x; the invariant kept |
| Snake.PlaysDrawn | user/snake.c:210-219 | from a faithful picture a tick makes a faithful one if and only if the snake did not eat at full length, or the new food covers its old tail |
| Snake.RunGood | user/snake.c:172-220 | in every reachable state the body is distinct, connected, inside and at most 512 long, and the food is off it |
| Snake.RunDrawn | user/snake.c:172-220 | until the snake eats at full length, the cells that show '#' are exactly the body |

## Left out

- Hardware: ATA ports, UART, PIC, PIT, keyboard, GDT, IDT, TSS, the assembly, `load_cr3`, `invlpg` and the translation cache. A sector access is an access to a sequence.
- `kmalloc` inside `fs/fat16.c`: in `FatRead.VfsRead`, `FatWrite.VfsWrite`, `FatDir.VfsFindDir` and `FatFs.VfsCreate` its outcome is a parameter `memory`. `Vfs.Finddir` and `OpenFile.ReadBuffered` set it from the kernel heap; the contents of a node are a Dafny object and not bytes of its block.
- `vfs_mount` and the mount table (`fs/vfs.c:20-39`): the root node is a field. Dispatch checks other than the directory flag are not modelled.
- FatDir.VfsReadDir: the result is a value; that the static buffer is reused by the next call is not modelled.
- FatFs.CreateFinds: nothing is said about which of two equal names is found, since create does not look for duplicates.
- FatFiles.WriteFile: for a write that starts past the end, the bytes of the gap are whatever the clusters held.
- FatRuns.RunKeeps: calls that are refused outright and reads change nothing and are no events. A retried write names the cluster its handle held; which handle that was is not tracked.
- FatTable.FatSetEntry: a third FAT copy is not written by the code and nothing is said about it.
- FatLayout: at most 255 FAT sectors, so that no cluster number reaches 0xFFF8 or is cut by the 16-bit casts; chain entries are in range; one open handle per file. The total sector count is never consulted by the code, so every nameable cluster is taken to lie on the disk.
- Pmm: memory below 2 GB and regions inside the bitmap, as the code needs; a partial last bitmap word is never handed out, as in the code. The bitmap words are natural numbers with bits by position.
- Vmm: pages in directory slot 1023 are outside the contracts; setting a flag in an entry is addition where the bit is known to be clear. The entry of page 0 in the first table is unspecified, since neither the loop nor the table's creation sets it.
- `vmm_create_directory`: it frees the frame it returns and nothing calls it.
- UserMemory.AllocUser: not for pages mapped by somebody else, such as the kernel's first 4 MB, whose mapping `vmm_alloc_page` would replace.
- Elf.ElfLoad: segments whose end does not wrap, whose file bytes stay within the pages that p_memsz asks for, and whose pages are the process's own or unmapped. Access rights beyond the flags stored are not checked. A fault, which can only follow a lost frame, stops the model.
- Process.ProcessCreate: the image is as for `Elf.ElfLoad`, and the stack's pages are the process's own or unmapped. After a fault in the kernel, which then halts, nothing is said about the open nodes.
- ExecCommand.CmdExec: the path is already resolved (`Shell.PathResolve` is separate); the program stores to its own pages only, the processor's refusal of other addresses is not modelled.
- Process.Conservation: pages left behind by the error paths of `process_create` are covered only by the confinement of what was touched; the run is any sequence of byte stores to the process's pages, without system calls.
- Process: the current process, the kill flag and entering ring 3.
- Heap: the headers of swallowed blocks stay in memory unread and unspecified; the heap's pages are taken as mapped.
- Snake: colours, title, border, score digits, sleeping; the random generator is a free choice of a cell off the body, so the end of `place_food`'s loop is not proved.
- Shell.CmdCat: the newline printed after the file.
- `drivers/`, `klibc/stdio.c`, command dispatch, multiboot parsing, `yotos_terminal.py`: user interface or easy members.
