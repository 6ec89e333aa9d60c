# Proofs about a family of teaching kernels

This project models core parts of four operating-system course kernels that share one base, together with
their user programs and disk tools, and proves properties of them. Files that look the same in several kernels are cited from
p2b; p3a, p3b and p5 are cited where they differ. Paths below are relative to the repository.

Each component is modelled in the form of its source: classes with the fields that the code updates, methods
with its loops, and pure functions and invariants on values that the methods are proved against. Results about
whole runs are stated over sequences of atomic steps.

| component | modules |
|---|---|
| heap of the user library | `FreeBlocks`, `Umalloc` |
| inodes, blocks, files, directories | `FsBlock`, `FsDisk`, `FsMap`, `FsWrite`, `FsTrunc`, `Fs`, `FsDirMap`, `FsDir` |
| first file-system image | `Mkfs`, `MkfsTree`, `MkfsNames` |
| link counts | `Links`, `LinkRuns`, `FsLinks` |
| buffer cache | `Bio`, `BioRuns` |
| address spaces and frames | `VmSpace`, `VmMap`, `VmKernel`, `VmUser`, `VmFork`, `VmProtect`, `Vm`, `VmMeaning`, `VmRuns`, `VmMachine` |
| frame allocator with guard frames | `GuardAlloc` |
| processes | `Proc`, `ProcRuns` |
| pipes | `Pipe`, `PipeProtocol` |
| shell parser | `ShellParse`, `Shell`, `ShellStrings`, `ShellTrees`, `ShellRoundTrip`, `ShellLines` |
| regular expressions | `Grep` |
| file-system checker | `FsckImage`, `Fsck`, `FsckScan`, `FsckMeaning` |
| shared by several | `Basics` |

## How the parts fit

**Files.** The disk is a bitmap, inodes and blocks of bytes. `FsDisk.Sound` says that an owner map names the one
slot that uses each block, that free blocks are all zero, that a file has exactly the blocks its size needs, and that the
bytes behind its end are zero. The code relies on all of this without saying so: blocks are never cleared when they
are allocated, and the inode is written back only when the file grows. `MkfsTree.MakeImage` establishes the
invariant, for trees of which no directory ends on a block boundary, the methods of `Fs.FileSystem` keep it, and under it a file is a byte string and a directory a map.

**Memory.** An address space is its directory, its tables and its mappings; `VmSpace.Ok` says that the frames represent
it and that no frame serves two purposes. The same code is proved over two allocators, with `guard` for that of p3a, which
loses every second entry of its list. A frame is idle when it is free or has been skipped. Each method states which
frames it moves between the idle ones and the space, `VmRuns` composes such steps, and the methods of
`VmMachine.Machine` show that every call is such a step of a run from kinit. `VmMeaning` says what the calls do to each byte
that a user reads through the page tables.

**Meanings.** The functions that the methods are proved to compute follow the code. Where the code's order is not the point,
further lemmas say what they compute in other terms: slots, entries and counts of an image (`FsckMeaning`), the names and
paths of the host (`MkfsNames`), the characters of a line (`ShellLines`), a printer and its parser (`ShellRoundTrip`, `Grep.ParseShow`),
bytes and offsets (`Fs.ReadBack`, `Fs.ContentLayout`, `FsDir.LookupMeaning`), and pairs of calls (`Umalloc.MallocTwice`).

**Concurrency.** `BioRuns`, `ProcRuns`, `PipeProtocol` and `LinkRuns` are state machines whose steps are stretches
under a lock (or, in fork, single unlocked writes), or in `LinkRuns` single disk writes. The steps of the first three use
the functions that the methods of `Bio`, `Proc` and `Pipe` are proved to compute; the writes that the methods of `Links`
are proved to make are steps of `LinkRuns` (`LinkSteps`, `UnlinkSteps`, `CreateSteps`). The entries of `Links` and `LinkRuns`
are those of a disk: `FsLinks.Tree` reads them from the bytes of the directories, and there the methods of `FsDir` take exactly
the steps Enter, Remove and RemoveDir (`FsLinks.Dirlink`, `FsLinks.Unlink`).

## Where the code does less than it seems to

- malloc returns a block without room when the size computation wraps (`Umalloc.RoomIffNoWrap`, `Umalloc.WrappedRequest`),
  and takes old memory for new when the size is negative as an `int` (`Umalloc.SbrkGrows`, `Umalloc.HugeRequest`).
- balloc can return a block past the end of a full disk (`FsMap.AllocPastEnd`, `FsMap.FullDiskOverrun`).
- mkfs gives a directory that ends on a block boundary a block it does not have (`MkfsTree.MakeImage`, `MkfsTree.ThirtyFiles`).
- setupkvm loses its frames when it fails midway (`Vm.Memory.Setupkvm`, `VmRuns.RunRestores`).
- mprotect checks the length of its range but not its end (`VmProtect.ProtectKeepsKernel`, `VmProtect.ProtectPastEnd`).
- A killed writer may leave a reader asleep on a full pipe (`PipeProtocol.StepWakes`, `PipeProtocol.KilledWriterLosesWakeup`).
- A link entered in a removed directory is never given back (`LinkRuns.QuietExact`, `LinkRuns.CarelessLinkLeaks`).

For each of these the exact condition is proved.

## Model

| member | source | states |
|---|---|---|
| `Umalloc.Heap.Malloc` | p2b/user/umalloc.c:63-90 | Every call terminates. Without growth the next fitting block behind `freep` is cut at its tail, and `freep` ends at the block before it; sbrk is asked only when no block fits, and at most once, and then the scan meets a fitting block before it is back at `freep`; 0 is returned exactly when nothing fits and sbrk refuses. The ring, the live blocks and their units stay intact. |
| `Umalloc.Heap.Free` | p2b/user/umalloc.c:24-44 | The freed block joins the free list, coalesced with both neighbours it touches, and `freep` ends at the last free block below it, or the base; the scan for its place terminates from any `freep`; the other live blocks and the units from sbrk are untouched. |
| `Umalloc.Heap.MoreCore` | p2b/user/umalloc.c:46-61 | A chunk of max(nu, 4096) units from sbrk is released into the list, after which some block has room for nu units, merged into its neighbour or not. |
| `Umalloc.Heap.UserStore` | p2b/user/umalloc.c:84 | A program may write anything inside its own blocks without harming the allocator. |
| `Umalloc.MallocTwice` | p2b/user/umalloc.c:70-83 | Two calls in a row: while the block that was cut has room, the second one returns the units directly below the first; after an exact fit it starts with the block that followed. |
| `Umalloc.FreeThenMalloc` | p2b/user/umalloc.c:24-83 | A freed block that was not joined to the one before it is the first that the next malloc tries: if it has room, it is cut at its tail. |
| `Umalloc.NextFitMeaning` | p2b/user/umalloc.c:70-73 | The block that malloc takes, as a property of the list: from the place of `freep` to the end and then from the front, no block before it has room. |
| `Umalloc.GrowthIsChunk` | p2b/user/umalloc.c:46-61 | A call that grows the heap adds max(n, 4096) units to it. |
| `Umalloc.ScanStops` | p2b/user/umalloc.c:30-32 | The loop condition of free, with the wrap-around test, holds at exactly one position of the ring: the one where the block belongs. |
| `Umalloc.RelinkIsRelease` | p2b/user/umalloc.c:33-42 | The two coalescing tests and pointer writes of free turn the linked ring of a list into the linked ring of the list with the block released. |
| `Umalloc.CutKeepsHeap` | p2b/user/umalloc.c:75-83 | Handing out the tail of a block, or unlinking an exact fit, keeps the ring and leaves free and live blocks disjoint and covering exactly the units from sbrk. |
| `Umalloc.Conservation` | p2b/user/umalloc.c:24-90 | Free units plus live units are the units obtained from sbrk. |
| `Umalloc.RoomIffNoWrap` | p2b/user/umalloc.c:69 | The block has room for the request if and only if nbytes + 7 does not wrap at 32 bits, and then it is the smallest number of units that has. |
| `Umalloc.WrappedRequest` | p2b/user/umalloc.c:69 | A request that wraps: malloc(0xFFFFFFFF) asks for one unit, the header alone. |
| `Umalloc.SbrkGrows` | p2b/user/umalloc.c:52-55 | The signed argument that morecore gives to sbrk is positive, and then the size of the chunk, exactly for requests of at most 2^31 - 16 bytes and for those that wrap. |
| `Umalloc.HugeRequest` | p2b/user/umalloc.c:52-55 | A request for which the argument of sbrk is negative: malloc(2^31). |
| `FreeBlocks.CoalescedIsCanonical` | p2b/user/umalloc.c:33-42 | Address-ordered lists without adjacent blocks that cover the same units are the same list: full coalescing leaves no freedom. |
| `FreeBlocks.ReleaseMeaning` | p2b/user/umalloc.c:24-44 | Freeing keeps the list ordered and fully coalesced and adds exactly the freed units. |
| `FreeBlocks.TakeMeaning` | p2b/user/umalloc.c:75-83 | Allocation from a block keeps the list ordered and coalesced and removes exactly the units handed out. |
| `FreeBlocks.ReleaseCommutes` | p2b/user/umalloc.c:24-44 | The list after two frees does not depend on their order. |
| `FreeBlocks.ReleaseUndoesTake` | p2b/user/umalloc.c:24-90 | Freeing what was just allocated restores the list. |
| `FsDisk.PointersDistinct` | p2b/kernel/fs.c:319-347 | Under the ownership invariant no two slots of any inodes point to the same block, and every block pointed to is marked in the bitmap. |
| `FsDisk.AttachIndirect` | p2b/kernel/fs.c:332-341 | A freshly allocated indirect block lists no stale blocks, because free blocks are all zero. |
| `FsMap.AllocMeaning` | p2b/kernel/fs.c:53-75 | balloc finds a block of the disk if and only if one is free, and what it finds was free. |
| `FsMap.AllocPastEnd` | p2b/kernel/fs.c:60-70 | balloc returns a block past the end of the disk exactly when no block of the disk is free and the last bitmap block has a clear spare bit. |
| `FsMap.FullDiskOverrun` | p2b/kernel/fs.c:60-70 | A disk of 1024 blocks, all in use: balloc returns block 1024. |
| `FsMap.BmapExtends` | p2b/kernel/fs.c:319-347 | bmap succeeds exactly when there are as many free blocks as the slot and its indirect block need; it gives the slot a zeroed block of its own, keeps ownership and zeroed free blocks, and changes no other pointer and no data block. |
| `FsWrite.PieceSound` | p2b/kernel/fs.c:438-444 | One turn of writei keeps the whole invariant and changes exactly the bytes written, in exactly one file. |
| `FsWrite.IterationSound` | p2b/kernel/fs.c:438-444 | One turn of writei fails exactly when the growth of the file needs more blocks than are free, and otherwise consumes exactly those; a file that does not grow keeps its pointers. |
| `FsWrite.MissingIsGrowth` | p2b/kernel/fs.c:319-347 | bmap allocates what the growth of a file needs and nothing else, so every allocation goes with a larger size. |
| `FsWrite.SpliceTwice` | p2b/kernel/fs.c:438-444 | Writing two adjacent pieces is writing their concatenation: the loop does not depend on where the blocks end. |
| `Fs.FileSystem.Balloc` | p2b/kernel/fs.c:53-75 | The two loops over bitmap blocks and bits find the first clear bit and set it. |
| `Fs.FileSystem.Bfree` | p2b/kernel/fs.c:78-97 | The block is zeroed and its bit cleared; callers free only blocks in use, so "freeing free block" is not reached. |
| `Fs.FileSystem.BmapBlock` | p2b/kernel/fs.c:319-347 | The direct and indirect paths compute the allocation step on the disk with the in-memory inode. |
| `Fs.FileSystem.Writei` | p2b/kernel/fs.c:419-451 | At off at or before the end, all bytes are accepted if they fit below 140 blocks, and else those up to there; exactly these are stored, across blocks and the indirect block, and the size grows to their end; the in-memory inode equals the one on disk afterwards. It fails exactly on a device, a bad or wrapping offset, or too few free blocks. |
| `Fs.FileSystem.Readi` | p2b/kernel/fs.c:392-417 | A read of any range returns exactly that slice of the content, cut at the end of the file, and changes neither the disk nor the inode. |
| `Fs.ReadBack` | p2b/kernel/fs.c:392-451 | After a write the file reads as the bytes written from off on and as before elsewhere, with no byte behind both ends; its type and links, and every other file, are as before. |
| `Fs.ContentLayout` | p2b/kernel/fs.c:319-347 | Where byte k of a file lies: in the twelve direct blocks, and beyond them in the blocks whose numbers the indirect block holds in little-endian order. |
| `FsWrite.SpaceSuffices` | p2b/kernel/fs.c:319-347 | A write has space exactly when the blocks by which the file grows are free, and one more if it only now needs its indirect block. |
| `FsWrite.BlocksForMeaning` | p2b/kernel/fs.c:319-347 | A file of s bytes has as many data blocks as it takes to hold them, and an indirect block if these are more than twelve. |
| `Fs.FileSystem.Itrunc` | p2b/kernel/fs.c:349-380 | Exactly the blocks of the file are zeroed and freed, its pointers cleared, and the invariant kept. |
| `FsTrunc.TruncatedSound` | p2b/kernel/fs.c:349-380 | Truncation keeps the invariant, empties the file, gives back exactly its blocks, leaves its type and links, and touches no other file. |
| `FsTrunc.FreeSlot` | p2b/kernel/fs.c:349-380 | When itrunc comes to a slot its block is still marked in use, so no block is freed twice. |
| `Fs.ReadFacts` | p2b/kernel/fs.c:406-417 | Below the size of a file bmap finds a block and allocates nothing. |
| `Fs.ReadSlice` | p2b/kernel/fs.c:410-415 | The bytes of a block are the bytes of the content at that place. |
| `FsBlock.WordOfSetWord` | p2b/kernel/fs.c:337-341 | Storing a block number in an indirect block and loading it back; the other numbers stay. |
| `FsDir.BlockEntry` | p2b/kernel/fs.c:474-478 | dirlookup reads whole blocks past the size of the directory: what it finds there is an unused entry. |
| `FsDir.Dirlookup` | p2b/kernel/fs.c:463-493 | The number and offset of the first entry in use that carries the name, or nothing; the disk does not change. |
| `FsDir.LookupMeaning` | p2b/kernel/fs.c:463-493 | The same in bytes: the offset is that of the first 16-byte entry with a nonzero number and the name, padded with a NUL where there is room, and the number is its first two bytes, lower byte first. |
| `FsDirMap.EntryLayout` | p2b/kernel/fs.c:517-519 | The bytes of the entry that dirlink writes: the number, lower byte first, and the name with NULs behind it. |
| `FsDir.Dirlink` | p2b/kernel/fs.c:495-523 | Refused if and only if the name is there; otherwise the entry goes to the first unused slot or the end, in this directory only. |
| `FsDir.NamesEqual` | p2b/kernel/fs.c:455-459 | strncmp over 14 bytes decides equality of the names up to NUL. |
| `FsDir.ClearEntry` | p2b/kernel/sysfile.c:198-200 | The write of zeros over an entry never needs space and changes only that entry of that directory. |
| `FsDirMap.CanonUnique` | p2b/kernel/fs.c:455-459 | A name field stands for a name exactly when it holds its bytes and, where there is room, a NUL behind them. |
| `FsDirMap.LinkMap` | p2b/kernel/fs.c:495-523 | dirlink adds exactly one binding to the map that the directory stands for, and names stay unique. |
| `FsDirMap.UnlinkMap` | p2b/kernel/sysfile.c:198-200 | Clearing an entry removes exactly its binding from the map. |
| `Mkfs.Image.constructor` | p2b/tools/mkfs.c:67-94 | A zeroed image satisfies every invariant of the file system, with all data blocks free. |
| `Mkfs.Image.Iappend` | p2b/tools/mkfs.c:323-370 | Appending extends exactly one file by exactly these bytes, and fails exactly when the largest file or the free blocks do not suffice. |
| `Mkfs.Image.Ialloc` | p2b/tools/mkfs.c:291-303 | A new empty inode with one link; all other files and all blocks stay. |
| `Mkfs.PrefixAlloc` | p2b/tools/mkfs.c:340-356 | Taking blocks in increasing order is the first-fit allocation of the kernel. |
| `Mkfs.RoundingSound` | p2b/tools/mkfs.c:183-188 | Rounding up the size of a directory keeps the invariant if and only if the size is not already a multiple of 512. |
| `Mkfs.RoundedViews` | p2b/tools/mkfs.c:183-188 | The rounded directory has its entries followed by unused ones; no other file changes. |
| `Mkfs.Image.RoundSize` | p2b/tools/mkfs.c:183-188 | The last step of add_dir: the directory gets its entries followed by unused ones, or, when it ends on a block boundary, a size for which it has no block. |
| `Mkfs.FullSound` | p2b/tools/mkfs.c:183-188 | An image is sound, whoever owns the blocks, exactly when no rounded directory had ended on a block boundary. |
| `Mkfs.Balloc` | p2b/tools/mkfs.c:305-319 | The bitmap marks exactly the first blocks, as many as were used. |
| `MkfsTree.AddDir` | p2b/tools/mkfs.c:97-190 | add_dir succeeds exactly when every file fits and the tree needs no more blocks than are free; then the blocks of the image hold the host tree, byte for byte, with inodes numbered in the order of the walk, and the directories with a size too large are exactly those that end on a block boundary. |
| `MkfsTree.AddChild` | p2b/tools/mkfs.c:141-181 | One host entry, file or directory, is copied with everything below it, and nothing older changes. |
| `MkfsTree.CopyFile` | p2b/tools/mkfs.c:165-170 | A host file read in pieces of at most 512 bytes is copied exactly. |
| `MkfsTree.MakeImage` | p2b/tools/mkfs.c:196-230 | mkfs succeeds exactly when the tree fits; the image, with the bitmap of the last step, satisfies all invariants of the kernel if and only if no directory of the tree ends on a block boundary, and then it holds the host tree. |
| `MkfsTree.ThirtyFiles` | p2b/tools/mkfs.c:183-188 | Thirty files in the root: mkfs succeeds, and the root directory ends on a block boundary. |
| `MkfsNames.DirectoryReads` | p2b/tools/mkfs.c:128-190 | When the first 14 bytes of the host names in a directory differ and none is a dot name, the directory on the image maps "." and ".." to itself and its parent and each such name to the inode that holds that child, and has no other name. |
| `MkfsNames.PathReads` | p2b/tools/mkfs.c:97-190 | Then every path of the host resolves on the image, name by name, to a file with the same bytes or to a directory. |
| `MkfsNames.ImageReads` | p2b/tools/mkfs.c:196-230 | On the image that mkfs makes, following the names of a host path from inode 1 gives the bytes of that file. |
| `Vm.Memory.constructor` | p2b/kernel/kalloc.c:22-32 | After kinit exactly the frames behind the kernel are free. |
| `Vm.Memory.Kalloc` | p3a/kernel/kalloc.c:86-111 | p2b takes the first entry of the list; p3a takes two, hands out the first and loses the second. |
| `VmSpace.FedMeaning` | p3a/kernel/kalloc.c:96-99 | n calls of p3a kalloc find no list with a single entry, on which it follows a null pointer, if and only if the list is even or has 2n entries. |
| `Vm.Memory.Walkpgdir` | p2b/kernel/vm.c:52-73 | The entry of a page; with create, a missing table is made from a cleared frame unless none is free, and no mapping changes. |
| `Vm.Memory.Mappages` | p2b/kernel/vm.c:77-99 | All pages of the range are mapped to consecutive frames with the tables they need, or some of the tables are made and no frame is left. |
| `Vm.Memory.Setupkvm` | p2b/kernel/vm.c:127-152 | Thirteen calls of kalloc: succeeds exactly when the list has the entries for them, 13 in p2b and 26 in p3a, takes exactly these, and maps the kernel and nothing else; otherwise the frames it was given are gone, and there are such frames unless the list was empty. |
| `VmKernel.KernelDone` | p2b/kernel/vm.c:121-132 | The four ranges of kmap give the kernel exactly its mappings in twelve tables, the table of all user pages among them. |
| `VmKernel.NextUnmapped` | p2b/kernel/vm.c:121-132 | The ranges of kmap do not overlap, so setupkvm does not panic with "remap". |
| `VmMeaning.KernelMeaning` | p2b/kernel/vm.c:105-132 | What the two-level walk of the processor finds for kernel addresses: itself, out of the user's reach, writable below 1 MB, from the kernel's data to 16 MB and for devices, read-only for the kernel's text, and nothing elsewhere. |
| `Vm.Memory.Allocuvm` | p2b/kernel/vm.c:231-256 | Grows by zeroed pages in frames that were free, or, when frames run out, leaves the space and its bytes as they were; then the same frames are free (p2b), or free or skipped (p3a). |
| `VmMeaning.AllocReads` | p2b/kernel/vm.c:231-256 | Byte by byte, through the page tables: after growth the user reads zeros in the pages that start between the sizes and may write there; everywhere else nothing has changed. |
| `VmMeaning.UpMeaning` | p2b/kernel/vm.c:244 | PGROUNDUP counts the fewest pages that hold the bytes. |
| `VmUser.MappagesSucceeds` | p2b/kernel/vm.c:252 | The unchecked mappages in allocuvm cannot fail: the I/O space has brought the table of every user page. |
| `VmUser.GrownShrunk` | p2b/kernel/vm.c:245-250 | Partial growth followed by deallocuvm restores the space and the idle frames, which without guard frames are the free ones. |
| `Vm.Memory.Deallocuvm` | p2b/kernel/vm.c:258-283 | Exactly the pages behind the new size go, their frames become free, and all other pages keep their bytes. |
| `VmMeaning.DeallocReads` | p2b/kernel/vm.c:258-283 | Byte by byte: the pages that start between the sizes cannot be read any more; everywhere else nothing has changed. |
| `VmMeaning.FreedFirst` | p2b/kernel/kalloc.c:36-71 | In p2b the frame freed last is handed out first, and the list behind it stays. |
| `Vm.Memory.Freevm` | p2b/kernel/vm.c:285-300 | Every frame of the address space becomes free, and no other frame is touched. |
| `Vm.Memory.Copyuvm` | p3a/kernel/vm.c:308-347 | 13 calls of kalloc plus one per page, at one entry each in p2b and two in p3a, whose second is lost: succeeds exactly when the list has that many; the child has equal bytes in frames of its own and, in p3a, the write bits of its parent (in p2b every page is writable); when the pages run out, the same frames are free (p2b), or free or skipped (p3a); the parent is untouched. |
| `VmMeaning.CopyReads` | p3a/kernel/vm.c:308-347 | Byte by byte: the child reads below the size what the parent reads, and nothing above it; it may write there, in p3a only where the parent may. |
| `VmMeaning.CopyIsPrivate` | p3a/kernel/vm.c:308-347 | No page of the child lies in a frame of the parent. |
| `VmMeaning.ParentReads` | p3a/kernel/vm.c:308-347 | Byte by byte: for the parent nothing has changed. |
| `VmFork.SpaceKept` | p2b/kernel/vm.c:231-331 | What happens to one address space leaves the tables and pages of every other one alone. |
| `VmFork.FreeingDone` | p2b/kernel/vm.c:285-300 | Once the pages, the tables found in the directory, and the directory are freed, the space owns nothing. |
| `VmRuns.StepSound` | p2b/kernel/vm.c:127-331 | Each call keeps all address spaces in order and disjoint, the pages of the others, and the set of frames that are idle, owned or gone. |
| `VmRuns.RunConserves` | p2b/kernel/vm.c:127-331 | In every run no frame is lost or shared; what p3a has skipped and what a failed setupkvm took stays so. |
| `VmRuns.RunRestores` | p2b/kernel/vm.c:127-331 | A run that ends with the address spaces it began with ends with the same idle frames, and in p2b the same free frames, if and only if no setupkvm failed with frames in its hands. |
| `VmRuns.BootRestores` | p2b/kernel/vm.c:127-331 | From kinit, once all address spaces are freed: all frames behind the kernel are idle again, and in p2b on the free list, if and only if no setupkvm failed midway. |
| `VmMachine.Machine.Setupkvm` | p2b/kernel/vm.c:127-152 | A call of setupkvm, successful or not, extends the run from kinit by one step; a failure leaves frames behind unless the list was empty. |
| `VmMachine.Machine.Allocuvm` | p2b/kernel/vm.c:231-256 | A call of allocuvm on any address space extends the run by one step. |
| `VmMachine.Machine.Deallocuvm` | p2b/kernel/vm.c:258-283 | The same for deallocuvm. |
| `VmMachine.Machine.Copyuvm` | p3a/kernel/vm.c:308-347 | The same for copyuvm, successful or not; a failure leaves frames behind only where setupkvm fails. |
| `VmMachine.Machine.Freevm` | p2b/kernel/vm.c:285-300 | The same for freevm. |
| `VmMachine.Machine.Mprotect` | p3a/kernel/proc.c:457-485 | The same for mprotect. |
| `VmMachine.Machine.Copyout` | p2b/kernel/vm.c:348-371 | The same for copyout. |
| `VmMachine.Machine.Reached` | p2b/kernel/vm.c:127-331 | After any calls: all address spaces are in order and share no frame, and every frame behind the kernel is idle, owned, or left behind by a failed setupkvm. |
| `VmMachine.Machine.AllFreed` | p2b/kernel/vm.c:285-300 | After any calls that end without address spaces: all frames behind the kernel are idle, if and only if no setupkvm failed midway; in p2b they are then all on the free list. |
| `VmMachine.PopIsAlloc` | p3a/kernel/kalloc.c:96-99 | The kalloc of the address spaces is that of `GuardAlloc`. |
| `Vm.Memory.Mprotect` | p3a/kernel/proc.c:457-485 | Accepts exactly an aligned address with a length from one page up to the size; then the loop over bytes clears the write bit once per page of the range and changes nothing else. |
| `VmProtect.ProtectedNext` | p3a/kernel/vm.c:389-402 | Clearing a bit that is clear changes nothing, so repeating the helper for every byte of a page is harmless. |
| `VmMeaning.ProtectReads` | p3a/kernel/proc.c:457-485 | Byte by byte: the user reads what he read before, and may write what he might outside the range. |
| `VmProtect.ProtectKeepsKernel` | p3a/kernel/proc.c:474-476 | The kernel keeps its mappings exactly when the range holds no writable kernel page: only the length is compared with the size. |
| `VmProtect.ProtectPastEnd` | p3a/kernel/proc.c:474-476 | In a process of 160 pages, mprotect of two pages from the last one on is accepted and takes the write bit of a kernel page. |
| `VmProtect.ProtectionAndFork` | p3a/kernel/vm.c:308-347 | A protected page is protected in the child of p3a, with equal bytes, and writable in the child of p2b. |
| `Vm.Memory.Copyout` | p2b/kernel/vm.c:348-371 | The bytes arrive at their virtual addresses up to the first page that is not the user's, and nothing else changes; -1 exactly when there is such a page. |
| `VmMeaning.CopyoutReads` | p2b/kernel/vm.c:348-371 | Byte by byte: the user reads the bytes at their addresses, and elsewhere what he read before. |
| `Bio.BufferCache.constructor` | p2b/kernel/bio.c:39-57 | The insertions of binit link all ten buffers into one ring. |
| `Bio.BufferCache.Bget` | p2b/kernel/bio.c:61-93 | One attempt: the buffer that caches the sector if it is free; a buffer to wait for if it is busy; otherwise the last free buffer of the ring, under its new identity. |
| `Bio.BufferCache.Bread` | p2b/kernel/bio.c:95-105 | The buffer returned is busy and valid, and holds what is cached for the sector or what is on the disk. |
| `Bio.BufferCache.Bwrite` | p2b/kernel/bio.c:107-115 | The holder's data goes to the sector of the buffer. |
| `Bio.BufferCache.Brelse` | p2b/kernel/bio.c:117-137 | The four relinking assignments move the buffer to the front of the ring and change no other order. |
| `Bio.Unlinks` | p2b/kernel/bio.c:126-127 | Unlinking leaves the ring of the remaining buffers, wherever the buffer stood. |
| `Bio.Inserts` | p2b/kernel/bio.c:128-131 | Insertion behind the head gives the ring with the buffer in front. |
| `Bio.WholeHasAll` | p2b/kernel/bio.c:45-56 | The ring holds every buffer. |
| `BioRuns.RunSound` | p2b/kernel/bio.c:39-137 | In every interleaving: one ring of all buffers, no two for one sector, one holder for each busy buffer, latest release first, and unchanged valid buffers equal to the disk. |
| `BioRuns.WriteBackSound` | p2b/kernel/bio.c:107-115 | Writing a sector falsifies no other buffer, because no other buffer caches it. |
| `BioRuns.VictimIsOldest` | p2b/kernel/bio.c:82-91 | The buffer that a miss recycles was released before every other free buffer. |
| `BioRuns.GetMeaning` | p2b/kernel/bio.c:61-93 | bget never returns a buffer that somebody holds, and gives a new identity only when no buffer has it. |
| `BioRuns.FreeEqualsDisk` | p2b/kernel/bio.c:8-23 | A free valid buffer equals its sector when clients write what they change. |
| `BioRuns.BreadReadsDisk` | p2b/kernel/bio.c:95-105 | bread gives its caller the sector as it is on the disk, whether it was cached or not. |
| `Proc.Table.ExitSection` | p3b/kernel/proc.c:186-200 | The parent is woken, every child goes to init, init is woken if one of them is a zombie, and the process becomes a zombie. |
| `Proc.ExitMeaning` | p3b/kernel/proc.c:186-200 | What exit does to each slot: children get init as parent; a sleeper is made runnable exactly when it waits on the parent, or on init and a child is a zombie; nothing else changes. |
| `Proc.Table.WaitSection` | p3b/kernel/proc.c:213-240 | One scan of wait, in terms of the table: the first zombie child is reaped with its pid; else the caller sleeps exactly when it has a child and is not killed, and gives up exactly when it has none or is killed. |
| `Proc.Table.Kill` | p3b/kernel/proc.c:390-410 | The first process with the pid ends up killed and, if it slept, runnable, and no other slot changes; -1 exactly when there is none. |
| `Proc.KillMeaning` | p3b/kernel/proc.c:390-410 | The same for the table as a function, on which the runs are built. |
| `Proc.Table.Allocproc` | p3b/kernel/proc.c:32-51 | The first unused slot becomes an embryo with the next pid. |
| `ProcRuns.EveryRun` | p3b/kernel/proc.c:127-306 | In every run on any number of CPUs: every live process and zombie but init has a live parent; whoever sleeps in wait has a child, none of them a zombie, and is not killed; no pid is reaped twice; a zombie is on a CPU only while that CPU holds ptable.lock. |
| `ProcRuns.StepSound` | p3b/kernel/proc.c:127-306 | Every step between lock releases keeps parents, waiters, pids, CPUs, half-made children and stacks in order, fork's writes outside the lock included. |
| `ProcRuns.ExitWaiters` | p3b/kernel/proc.c:186-200 | exit leaves no waiter asleep with a zombie child, neither its parent nor init. |
| `ProcRuns.ReapedIsOffCpu` | p3b/kernel/proc.c:219-232 | The kernel stack and page table that wait frees belong to a child that has left its CPU. |
| `ProcRuns.ReapPids` | p3b/kernel/proc.c:219-232 | A reaped pid leaves the table and is none of the pids reaped before. |
| `ProcRuns.ForkSound` | p3b/kernel/proc.c:127-160 | fork's unlocked writes to its new slot disturb no other process at any stage, failures included. |
| `ProcRuns.WaitSleepWaiters` | p3b/kernel/proc.c:234-243 | wait goes to sleep only without a zombie child. |
| `Pipe.Pipe.Write` | p2b/kernel/pipe.c:75-94 | A stretch of pipewrite stores bytes in order until it has no more or 512 are stored; it returns exactly when all have room, gives up exactly when it must wait and nobody reads or it is killed, and says whether readers are woken. |
| `Pipe.Pipe.Read` | p2b/kernel/pipe.c:97-118 | A stretch of piperead takes the oldest min(n, available) bytes, sleeps exactly on an empty pipe that may still be written when it is not killed, gives up exactly there when it is, and says whether writers are woken. |
| `Pipe.Pipe.Close` | p2b/kernel/pipe.c:57-72 | Closing one end keeps the contents and wakes the sleepers of the other side; the pipe is freed when both are closed. |
| `Pipe.SlotIgnoresWrap` | p2b/kernel/pipe.c:90 | Wrapping the free-running counters at 32 bits does not move a slot. |
| `Pipe.WindowPut` | p2b/kernel/pipe.c:90 | Storing at the write counter appends to the contents. |
| `Pipe.WindowGet` | p2b/kernel/pipe.c:110-114 | Fetching at the read counter removes the oldest byte, across the wrap. |
| `PipeProtocol.EveryRunIsFifo` | p2b/kernel/pipe.c:75-118 | In every run of a new pipe, kills included, bytes delivered followed by the contents are the bytes accepted, and at most 512 are stored. |
| `PipeProtocol.NoRunLosesWakeup` | p2b/kernel/pipe.c:75-118 | In every run of a new pipe without kills a sleeping reader implies an empty pipe open for writing and a sleeping writer a full one open for reading, so both sides never sleep together. |
| `PipeProtocol.StepWakes` | p2b/kernel/pipe.c:81-88 | A step breaks that exactly when a killed writer with more bytes than fit runs while a reader sleeps. |
| `PipeProtocol.KilledWriterLosesWakeup` | p2b/kernel/pipe.c:83-85 | A run in which a killed writer fills the pipe and leaves a reader asleep. |
| `PipeProtocol.KilledNeverSleeps` | p2b/kernel/pipe.c:81-88 | In every run a killed process never sleeps on the pipe, and leaves its call when it next runs. |
| `ShellRoundTrip.RoundTrip` | p2b/user/sh.c:326-447 | Parsing the printed form of any command tree, with fewer than ten words per command, `>>`, redirections between words, and parentheses where precedence needs them, gives its meaning: the same tree with redirections around their command and `>>` as `>`; without these, the tree itself. |
| `ShellRoundTrip.LevelZero` | p2b/user/sh.c:414-446 | A printed command, with its redirections or in parentheses, is read by parseexec up to what follows it. |
| `ShellRoundTrip.LevelThree` | p2b/user/sh.c:343-358 | A printed list is read by parseline up to the end or a closing parenthesis. |
| `ShellLines.CmdAlike` | p2b/user/sh.c:254-307 | Blanks are interchangeable: lines that differ only in which of the five blanks they use are parsed alike, to the same result or panic. |
| `ShellLines.AcceptedIsProper` | p2b/user/sh.c:326-447 | In every accepted line the parentheses match, and every redirection has a word behind it. |
| `ShellLines.WordLimit` | p2b/user/sh.c:428-439 | A command of any words and redirections is accepted with at most nine words, and panics with "too many args" from ten on. |
| `ShellStrings.StringsAreTokens` | p2b/user/sh.c:448-492 | After nulterminate every argument and file name read as a C string is its token. |
| `ShellStrings.EndsOutside` | p2b/user/sh.c:448-492 | No terminator lands inside a token. |
| `ShellStrings.LineTokens` | p2b/user/sh.c:264-307 | Every pointer the parser stores delimits a maximal run of word characters. |
| `Shell.Parser.Parsecmd` | p2b/user/sh.c:326-340 | parsecmd accepts exactly the lines of the grammar, with its panics, and terminates exactly the tokens of the command. |
| `Shell.Parser.Parseline` | p2b/user/sh.c:343-358 | The loop over `&` and the recursion behind `;` follow the grammar; the recursion terminates. |
| `Shell.Parser.Parseexec` | p2b/user/sh.c:414-446 | Words and redirections in any order, parentheses, the limit of ten arguments and the syntax panics follow the grammar. |
| `Shell.Parser.Parseredirs` | p2b/user/sh.c:373-396 | Each redirection wraps the command so far; a missing file name panics. |
| `Shell.Parser.Gettoken` | p2b/user/sh.c:264-307 | The four loops and the switch deliver the token, its ends and the place behind the blanks that follow it. |
| `Shell.Nulterminate` | p2b/user/sh.c:448-492 | A NUL is written at exactly the ends of the tokens of the tree. |
| `Links.Tree.Link` | p2b/kernel/sysfile.c:110-146 | A link adds one name and one count; every failure restores both; no disk write on the way leaves a file with fewer links than names; the writes are listed. |
| `Links.Tree.Unlink` | p2b/kernel/sysfile.c:164-210 | Dots and non-empty directories are refused; otherwise one name and one count go, with the same safety; the panic "nlink < 1" is not reached for a file. |
| `Links.Tree.Ialloc` | p2b/kernel/fs.c:147-168 | The first free inode behind inode 0 gets the kind and no links, nothing names it, and the write is safe; without one nothing changes. |
| `Links.Tree.Create` | p2b/kernel/sysfile.c:212-255 | An existing file is returned, or a free inode becomes a file with one link and one name, with the same safety. |
| `LinkRuns.RunCovers` | p2b/kernel/sysfile.c:110-255 | However the calls of several processes interleave, at every disk write no file has fewer links than names and no name leads to a free inode. |
| `LinkRuns.StepLedger` | p2b/kernel/sysfile.c:110-255 | Each disk write keeps every inode's account of names, calls in progress and names lost with removed directories. |
| `LinkRuns.QuietExact` | p2b/kernel/sysfile.c:110-255 | Between calls links equal names for every file if and only if no name of a file vanished with a removed directory. |
| `LinkRuns.RunExact` | p2b/kernel/sysfile.c:110-255 | They are equal in every run in which nothing is entered in a removed directory. |
| `LinkRuns.CarelessLinkLeaks` | p2b/kernel/sysfile.c:127-136 | A run, from links equal to names, in which one process links a file in a directory that another one removes: the file keeps a link that no name accounts for. |
| `LinkRuns.QuietLedger` | p2b/kernel/sysfile.c:110-255 | Links equal to names, with no call in progress, are a start for these runs. |
| `FsLinks.Dirlink` | p2b/kernel/fs.c:495-523 | On the bytes of a disk, dirlink is the step Enter of the link-count runs: it finds the name taken exactly when the tree of the disk has the entry, and otherwise the tree gains exactly this entry; no name occurs twice afterwards. |
| `FsLinks.Unlink` | p2b/kernel/sysfile.c:186-200 | dirlookup and the write of zeros over the entry it found are the step Remove or RemoveDir: the number returned is what the tree has for the name, and exactly this entry goes. |
| `FsLinks.EnterTree` | p2b/kernel/fs.c:495-523 | A new entry in the bytes of one directory, with all other files as they were, is one new entry in the tree of the whole disk. |
| `FsLinks.ClearTree` | p2b/kernel/sysfile.c:198-200 | Zeros over one entry of one directory remove exactly this entry from the tree of the whole disk. |
| `FsLinks.IsDirEmpty` | p2b/kernel/sysfile.c:149-162 | isdirempty says whether every entry behind the first two is unused, and changes nothing. |
| `FsLinks.EmptyMeaning` | p2b/kernel/sysfile.c:149-162 | For a directory that starts with "." and "..", this is so exactly when the tree has no entry in it. |
| `FsLinks.SetLinks` | p2b/kernel/sysfile.c:201-208 | A link count that is changed and written back keeps the invariant of the disk and changes this count in the tree, and nothing else. |
| `LinkRuns.LinkSteps` | p2b/kernel/sysfile.c:110-146 | The disk writes of sys_link are two steps of a run, from any state. |
| `LinkRuns.UndoneSteps` | p2b/kernel/sysfile.c:142-145 | The writes of a sys_link that fails are two steps, which lead back. |
| `LinkRuns.UnlinkSteps` | p2b/kernel/sysfile.c:198-209 | The writes of sys_unlink are steps, for a file and for an empty directory. |
| `LinkRuns.CreateSteps` | p2b/kernel/sysfile.c:232-252 | The writes of create are steps, for a file and for a directory. |
| `LinkRuns.NamedHasLink` | p2b/kernel/sysfile.c:189-190 | The panic "unlink: nlink < 1" does not happen to a file, however calls interleave. |
| `FsckScan.Xfsck` | p5/xxxxfsck.c:41-283 | Exit status 0 exactly for images with all checked properties; then the directories form a tree. |
| `Fsck.CleanMeansTree` | p5/xxxxfsck.c:159-278 | In an accepted image every directory but inode 1 has exactly one entry besides the dots, ".." agrees with it, and its chain of parents ends at inode 1. |
| `Fsck.WalkStaysInDirectories` | p5/xxxxfsck.c:264-278 | In an accepted image the walk towards the root passes through directories only. |
| `FsckMeaning.CleanMeaning` | p5/xxxxfsck.c:41-283 | What an accepted image is, check by check, without the order in which the code looks: sizes, inodes, blocks, bitmap, references, dot-dot and the walk to the root. |
| `FsckMeaning.InodeMeaning` | p5/xxxxfsck.c:75-121 | Checks 2, 3 and 4 by the addresses, types and first two entries of an inode. |
| `FsckMeaning.Check7Meaning` | p5/xxxxfsck.c:83-105 | Check 7: the direct blocks of each inode in use differ from each other and from all blocks of the inodes before it. |
| `FsckMeaning.BitmapMeaning` | p5/xxxxfsck.c:123-137 | Checks 5 and 6: from the first data block on, a bit is set exactly when an inode in use has the block. |
| `FsckMeaning.DataBlocksMeaning` | p5/xxxxfsck.c:139-157 | Check 8 concerns regular files only and compares the size with the number of slots in use. |
| `FsckMeaning.SizeMeaning` | p5/xxxxfsck.c:139-157 | With slots filled from the front, check 8 holds exactly when the slots in use are those that begin below the size; for the signed size, -511 to 0 pass for an empty file. |
| `FsckMeaning.ReferencesMeaning` | p5/xxxxfsck.c:159-188 | The reference count of an inode is the number of entries, other than the dots, that name it, wherever they are, and one more for the root. |
| `FsckMeaning.ParentMeaning` | p5/xxxxfsck.c:217-248 | The recorded parent of an inode with one reference is the directory of the entry that names it. |
| `FsckMeaning.WalkMeaning` | p5/xxxxfsck.c:264-278 | The root is reached exactly when a chain of recorded parents leads to it. |
| `FsckScan.Walk` | p5/xxxxfsck.c:264-278 | The walk with visit marks accepts exactly when the chain reaches inode 1, within as many steps as there are inodes. |
| `FsckScan.LoopMissesRoot` | p5/xxxxfsck.c:271-274 | A chain that returns to an inode before it has met inode 1 never meets it. |
| `FsckScan.CheckInodes` | p5/xxxxfsck.c:75-121 | Checks 2, 3, 4 and 7 accept exactly the images with those properties, and leave the number of uses of every block. |
| `FsckScan.CheckBitmap` | p5/xxxxfsck.c:123-137 | Checks 5 and 6 accept exactly when the bitmap marks the data blocks in use. |
| `FsckScan.CheckSizes` | p5/xxxxfsck.c:139-157 | Check 8 accepts exactly when every file has the blocks that its size needs. |
| `FsckScan.ScanLinks` | p5/xxxxfsck.c:159-248 | The passes over all directory entries leave the number of references and the last parent of every inode. |
| `FsckScan.CheckRefs` | p5/xxxxfsck.c:192-215 | Checks 9 to 12 accept exactly when references and inodes agree. |
| `FsckScan.CheckDotDots` | p5/xxxxfsck.c:252-262 | Accepts exactly when ".." of every directory names its recorded parent. |
| `FsckImage.OneLink` | p5/xxxxfsck.c:208-213 | An inode counted once has one entry, and the parent recorded for it is the directory of that entry. |
| `GuardAlloc.NoRunHandsOutNeighbours` | p3a/kernel/kalloc.c:27-111 | In every run from kinit no two frames that were ever handed out are adjacent, whatever the order of frees, and every frame is on the list, in use or lost. |
| `GuardAlloc.AllocKeepsInv` | p3a/kernel/kalloc.c:86-111 | The frame just above the untouched tail of the list has never been handed out, and kalloc keeps it so. |
| `GuardAlloc.LostStaysLost` | p3a/kernel/kalloc.c:99 | A skipped frame is never handed out again. |
| `GuardAlloc.Allocator.Kalloc` | p3a/kernel/kalloc.c:86-111 | The first entry is returned, the second lost, and the number of the frame goes to the first empty slot of the log, if there is one. |
| `GuardAlloc.Allocator.Kfree` | p3a/kernel/kalloc.c:53-77 | A frame of the pool goes to the front with the next number; any other panics. |
| `Grep.Match` | p2b/user/grep.c:71-81 | 1 exactly when a substring, a prefix for ^, a suffix for $, is a word of the pattern. |
| `Grep.MatchHere` | p2b/user/grep.c:84-95 | The backtracking recursion terminates and decides whether a prefix of the text is a word of the pattern. |
| `Grep.MatchStar` | p2b/user/grep.c:98-105 | c* followed by the rest matches exactly when the rest matches behind some run of fitting characters, the empty run included. |
| `Grep.InLanguageCons` | p2b/user/grep.c:84-95 | A word of a pattern is a word of its first item followed by a word of the rest. |
| `Grep.PrefixMatchesCons` | p2b/user/grep.c:84-95 | The same for prefixes of a text: working from left to right misses no match. |
| `Grep.ParseShow` | p2b/user/grep.c:84-95 | Reading the printed form of a pattern gives it back exactly when it can be written: no single character before a star, no single dollar at the very end. |
| `Grep.MatchByCases` | p2b/user/grep.c:84-105 | The four cases of a pattern text: empty, a final dollar, a starred character, and a single one, which a star or final dollar is not. |
| `Grep.WordSearch` | p2b/user/grep.c:71-81 | A word without special characters matches the texts that contain it; with ^ those that begin with it, with $ those that end with it, with both the word itself. |

## Left out

- Hardware, interrupts, boot code, spinlocks and the context switch itself: a lock section is one step, a sector transfer and a hand-over between a process and its scheduler are one step each.
- The scheduler of p2b (`p2b/kernel/proc.c:295-468`), `p4a/mapreduce.c`, `p3b/kernel/kalloc.c` and `p5/FS_checker/xfsck.c`: their code does not do what their comments promise.
- munprotect of p3a: it touches one page more than mprotect, so the two are not inverse.
- exec, inituvm, loaduvm, path lookup, file descriptors, consoles, test programs, and grep's buffer loop.
- The inode cache: iget, iput and ilock appear as the assumption that the caller holds the only in-memory copy of an inode, locked.
- The buffer cache under the file system: `Fs` reads and writes blocks directly, which `BioRuns.BreadReadsDisk` justifies for one client at a time.
- The packing of disk inodes, superblocks and bitmap bits into bytes: inodes and bits are sequences; only indirect blocks and directory entries are decoded from bytes.
- Fs.FileSystem.Writei: a write that runs out of blocks, where the original panics in balloc or writes past the end of the disk, is only reported as NoSpace; the state it leaves is not described.
- Crashes between disk writes: only link counts are followed write by write.
- Device files: reads and writes are reported as dispatched; major and minor numbers are not kept.
- Umalloc.Heap.Malloc: sbrk is required to return fresh memory or to fail. It does so exactly for the requests of `Umalloc.SbrkGrows`; for the others its 32-bit argument is not positive, and the original takes the old break for a new chunk.
- Umalloc.Heap.MoreCore: the same.
- Mkfs.Image.Ialloc: the original does not check that the inode table has room, so the model requires it.
- MkfsTree.MakeImage: for the same reason stated for at most 198 entries.
- MkfsTree.AddDir: stated for trees whose inodes the table has room for.
- MkfsTree.AddChild: the same.
- Vm.Memory.Mprotect: lengths whose product with 4096 leaves the range of `int`, ranges that wrap at 2^32 (addr + len * 4096 > 2^32), and ranges with pages that have no table, where the original follows a null pointer, are required not to occur.
- VmMachine.Machine.Mprotect: the same three are required not to occur.
- Vm.Memory.Copyout: ranges that wrap at 2^32 and ranges with pages that have no table are required not to occur.
- VmMachine.Machine.Copyout: the same two are required not to occur.
- Vm.Memory.Kalloc: in p3a a list with one entry, where the original follows a null pointer, is required not to occur (`VmSpace.Fed`); on an empty list the original returns 0 only when its log of 512 frame numbers is full, and reads through the null pointer before that, while the model always returns none.
- Vm.Memory.Mappages: a page that is mapped already, where the original panics with "remap", is required not to occur.
- Physical frames are typed by use: a frame read as a page table after holding other bytes cannot be expressed, and kfree's junk is an unreadable frame; links of the free list inside free frames are a sequence.
- Bio.BufferCache.Bget: the sleep and the retry are not a loop here; an attempt that finds the buffer busy is reported. `BioRuns` covers the attempts of all processes.
- Bio.BufferCache.Bread: the same.
- ProcRuns.EveryRun: pids are unbounded numbers; open files, directories and trap frames of a process are not modelled; a slot that a failed fork gave up keeps its old pid and killed flag, as in the code.
- Pipe.Pipe.Write: negative lengths are not modelled; the bytes of one call are given as a sequence.
- Shell.Parser.Parseexec: the execcmd that lies inside the redirections is updated through the tree, not through a shared pointer.
- Running commands: fork, exec, redirection and pipes of the shell are not modelled.
- FsckScan.Xfsck: only the exit status is modelled, not the message or the order of messages; the second pass over the entries is merged with the first; entry numbers beyond the inode table, with which the original writes outside its arrays, count as rejection; check 7 means what the code does, which misses clashes made by later indirect entries.
- GuardAlloc.Allocator.Kalloc: fewer than two entries on the list, where the original follows a null pointer, are required not to occur.
- FsLinks.Tree: only entries and link counts are followed from the bytes of the disk into the tree; ialloc and iput are steps of the tree alone.
- Links.Tree.Create: running out of inodes, where the original panics, is reported as None.
