# HelixOS in Dafny

HelixOS is a small x86-64 kernel written in C. Its state is plain data: page tables, a frame bitmap, a FAT
volume, a free list, a node table, descriptor tables, rings. This project models the parts of it that carry
whole-state invariants and proves what they keep. `dafny verify dfyconfig.toml` checks everything.

State that the kernel updates in place is a class with arrays and fields; each operation is a method proved
against a relation or a function on values, and the laws are lemmas about those values. Physical addresses are
frame numbers (the heap counts 8-byte words), a page-table entry is a record of its bits, and the hand-unrolled
levels of the page-table walk are one method applied level by level.

## The parts

**Memory** (`Pmm`, `PageTables`, `PhysMem`, `VmSpec`, `VmRange`, `Vm`, `VmProt`, `Identity`, `VmFork`, `Fork`,
`VmChild`, `VmNeed`, `VmCopy`, `VmFlags`, `VmDestroy`, `Destroy`, `VmLife`, `VmWorld`, `VmCount`, `Spaces`, `ElfSpec`,
`Elf`). The abstract object is a map from virtual pages to frames with W and U; the concrete one is a heap of 512-entry
tables. The invariant is that the tables of a space form a tree and that a user leaf has U on every level above it.
Mapping is a point update even when a 2 MiB leaf is split; unmapping frees exactly the tables it empties; allocating
and unmapping a range is the identity; a fork is a byte-equal copy that shares no table and no user frame, what one
that runs out of frames leaves is said page by page, and destroying it restores the allocator exactly; over all
interleavings no task sees another one's steps and no frame is lost; a loaded program reads back through the page
tables.

**FAT16/32** (`FatDisk`, `FatChain`, `FatFile`, `FatDir`, `FatEdit`, `FatRename`, `FatTree`, `FatPaths`, `FatOps`,
`FatCases`), after the Microsoft FAT32 File System Specification, version 1.03, sections "FAT Data Structure" and
"FAT Directory Structure". Files are flat byte sequences over acyclic, disjoint chains, directories are maps from
names to entries, what was written is what a reopened file reads, and a move between directories keeps the
directory graph a tree and sends every path where it should go.

**Heap** (`Heap`), **/tmp** (`RamTree`, `Ramfs`), **scheduler** (`Sched`), **descriptors and pipes** (`Files`,
`FileLeaks`, `Pipes`), **virtqueue** (`Virtq`, after section 2.6 of VIRTIO 1.1), **TCP retransmission queue**
(`Tcp`, after sections 3.8.1 and 3.10.7.4 of RFC 9293), **calendar** (`Calendar`). `Tiny` holds the types they share.

## Where the code does less than its comments or callers say

The model follows the code in each case.

- Splitting a 2 MiB leaf keeps PWT, A, D, G and NX but drops PCD, which the comment says it keeps
  (kernel/arch/x86_64/paging.c:153): a page keeps these flags exactly if it was not in a leaf with PCD
  (`VmSpec.SplitFlags`, `VmFlags.SplitLosesPcd`).
- Forking a 2 MiB user leaf keeps W, U, PWT and PCD and drops A, D, G and NX (kernel/mm/vmm.c:146-160): a page keeps
  its flags exactly if it was not in such a leaf with one of them set (`VmCopy.CopiedFlags`, `VmFlags.ForkLosesNx`).
- A fork or clone that runs out of frames leaves entries out, and at the PML4 shares the parent's own table
  (kernel/mm/vmm.c:204, 258). It is complete exactly if as many frames are free as its tables and user pages need, and
  shares a PML4 slot in use exactly if the free frames do not go beyond what the slots before it need
  (`Spaces.ForkSpace`, `VmNeed.SharesIff`, `VmFlags.ForkShares`). Page by page, the child shows the parent's own page,
  a copy, or nothing (`VmChild.ChildView`); if nothing is shared it can be destroyed without trace
  (`Spaces.DestroyCopy`).
- A failed `vmm_alloc_user_pages` leaves the pages mapped so far, and no other page changes
  (`Vm.Machine.AllocUserPages`).
- `kmalloc` computes its block size in 64 bits; the block is too small exactly if size + 23 wraps
  (`Heap.NeedHolds`, `Heap.NeedWraps`).
- ramfs unlink does not look whether the node is a directory with something in it; it leaves a tree exactly if
  nothing was (`RamTree.DropIff`, `Ramfs.UnlinkBreaks`).
- A ramfs path component longer than 31 characters is read as two components; a list of names comes back from its
  path exactly if none is longer (`Ramfs.PartsExact`, `Ramfs.PartsOfLong`).
- Creating a FAT file leaves its cluster allocated and unnamed exactly if every slot of the root is taken and the root
  is fixed or that cluster was the only free one (kernel/fs/fat.c:1306-1330; `FatOps.CreateFile`,
  `FatCases.CreateWastes`).
- `fat_write_file` rewrites the entry of the file's name in the root directory, wherever the file is
  (kernel/fs/fat.c:1421). The entry of a file in another directory agrees with the file afterwards exactly if the
  write did not reach past its end, and a root file of the same name is left with the other file's chain
  (`FatOps.WriteBelow`, `FatCases.BelowGoesStale`).
- `sys_dup2` onto descriptors 0 to 2 does not let go of what they named. References equal slots afterwards exactly if
  it was not such a call onto a file other than a console (`FileLeaks.Dup2Exact`, `FileLeaks.Dup2Leak`); they are never
  fewer. `sys_pipe` leaves an end open that nothing names exactly if fewer than two descriptors are free
  (`FileLeaks.PipeStrands`, `FileLeaks.PipeStrandsBoth`). Without leaks a pipe is at end of file exactly when no
  descriptor names its write end (`Pipes.EofExact`); after one a reader may wait for ever (`Pipes.LeakHidesEof`).
- `pipe_write` tests for a read end without references, but the last close of the read end makes the pipe forget it
  (kernel/fs/pipe.c:58, 88-89). So the test never stops a write through a descriptor, and bytes are appended with
  no reader left (`Pipes.WriteNotStopped`, `Pipes.AppendsWithoutReader`).
- A full TCP ring sends a segment without queueing it (kernel/net/tcp.c:261-282). What is sent and not acknowledged
  stays queued exactly if the ring had room (`Tcp.SentExact`, `Tcp.FullLoses`).
- TCP acknowledgement numbers are compared without regard to wrap-around and not compared with `snd_nxt`
  (kernel/net/tcp.c:460-464). The source does what section 3.10.7.4 of RFC 9293 says exactly if the number is beyond
  what was sent just when a wrap hides it, and no wrap is between the numbers compared after that (`Tcp.AckExact`).
  Otherwise a segment can be dropped unacknowledged (`Tcp.WrapLoses`, `Tcp.UnsentLoses`).
- The ELF loader's test that a segment is in the file is done in 64 bits; it lets in nothing else exactly if the sum
  does not wrap, or wraps to more than the file has (`Elf.FileTest`, `Elf.FileTestWraps`).
- Times before 1980 have the FAT stamp 0 and times from 2108 on have one of a year up to 2107, so the round trip is
  exact for 1980 to 2107 and the first two seconds of 1970 only (`Calendar.RoundTrip`).

## Model

| member | source | states |
|---|---|---|
| Pmm.FrameAllocator.constructor | kernel/mm/pmm.c:107-111 | pmm_init starts with every frame in use and unowned, and a free count of zero |
| Pmm.FrameAllocator.ReleaseRange | kernel/mm/pmm.c:113-131 | a free region of the memory map clears exactly its frames below the ceiling, and the free count stays the number of clear bits |
| Pmm.FrameAllocator.ReserveRange | kernel/mm/pmm.c:47-60 | every frame the byte range touches is marked, no other changes, and the free count stays the number of clear bits |
| Pmm.FrameAllocator.AllocPage | kernel/mm/pmm.c:154-165 | the lowest free frame is taken with one owner; 0 and no change exactly if every frame is in use |
| Pmm.FrameAllocator.FreePage | kernel/mm/pmm.c:167-176 | the frame's bit is cleared and counted once; a double free or a frame out of range changes nothing |
| Pmm.FrameAllocator.FindRun | kernel/mm/pmm.c:178-203 | the skip-ahead search finds the lowest run of n free frames among all start positions, and gives up only if there is none |
| Pmm.FrameAllocator.AllocPages | kernel/mm/pmm.c:178-203 | that lowest run is marked with one owner each; 0 and no change exactly if n is 0 or no run exists |
| Pmm.FrameAllocator.SharePage | kernel/mm/pmm.c:224-229 | the count goes up by one and saturates at 255 |
| Pmm.FrameAllocator.DerefPage | kernel/mm/pmm.c:231-240 | the count goes down by one, a frame at one is freed, one at zero is left alone |
| Pmm.SharedReleasedAtLastDrop | kernel/mm/pmm.c:224-240 | a fresh frame shared k times is released by drop k+1 and not before, if and only if k is below 255 |
| PageTables.WalkIsView | kernel/arch/x86_64/paging.c:345-369 | under the invariant, the processor's walk, with W and U taken over all levels, equals what the last entry on the path says: no leaf is cut off by an entry above it |
| PageTables.WriteEntry | kernel/arch/x86_64/paging.c:125-177 | overwriting one entry keeps the tree and changes the translation of the pages it translates and of no other |
| PageTables.HangTable | kernel/arch/x86_64/paging.c:125-173 | linking a table below an entry keeps the tree: each frame holds one table, each table has its parent |
| PageTables.DropTable | kernel/arch/x86_64/paging.c:245-262 | unlinking an empty table keeps the tree and every translation |
| PageTables.SameTables | kernel/arch/x86_64/paging.c:197-264 | two spaces with the same translations, no empty tables and kept leaves have the same set of tables |
| VmSpec.SplitStep | kernel/arch/x86_64/paging.c:147-164 | a 2 MiB leaf replaced by its table of 512 leaves shows every one of its pages as before |
| VmSpec.SplitFlags | kernel/arch/x86_64/paging.c:147-164 | every page of the space keeps PWT, PCD, A, D, G and NX through a split if and only if it was not in the split leaf or that leaf had no PCD |
| VmFlags.SplitLosesPcd | kernel/arch/x86_64/paging.c:147-164 | a space in which a split loses PCD |
| VmSpec.NewTableStep | kernel/arch/x86_64/paging.c:125-173 | an empty table linked in a fresh frame changes no translation |
| VmSpec.DescendKeepsViews | kernel/arch/x86_64/paging.c:125-174 | each of the four outcomes at one level of the walk (new table, split, grant of U, refusal) keeps the invariant and every translation |
| VmSpec.MapAfterWalk | kernel/arch/x86_64/paging.c:112-180 | walking down and writing the leaf together are one point update of the translations |
| VmSpec.CascadePrunes | kernel/arch/x86_64/paging.c:245-262 | the cascade frees only tables without a present entry and changes no translation |
| VmSpec.CascadeNoEmpty | kernel/arch/x86_64/paging.c:245-262 | after the cascade no table but the PML4 is empty, if none was before the leaf went |
| VmSpec.CascadeAnchored | kernel/arch/x86_64/paging.c:245-262 | the cascade never frees a table that an earlier state, in which the page was unmapped, had in use |
| VmSpec.LastPhys | kernel/arch/x86_64/paging.c:345-369 | an entry on the path either leads on or gives the address of the page, for leaves of 4 KiB, 2 MiB and 1 GiB alike |
| Vm.Machine.Descend | kernel/arch/x86_64/paging.c:125-174 | one level of the walk: absent entry, 1 GiB leaf refused, 2 MiB leaf split, U granted on the way, and nothing else |
| Vm.Machine.MapPage | kernel/arch/x86_64/paging.c:112-180 | on success the page is seen with the given frame and the W and U of the flags, its entry carries their PWT, PCD, A, D, G and NX, and every other page has its old translation; on failure, which means no frame is left or a 1 GiB leaf is in the way, every page has |
| Vm.Machine.Map4k | kernel/arch/x86_64/paging.c:112-180 | the same from addresses: page virt / 4096 gets frame phys / 4096; unaligned addresses or no PML4 are refused without effect |
| Vm.Machine.CountPresent | kernel/arch/x86_64/paging.c:197-204 | the number of present entries |
| Vm.Machine.Cascade | kernel/arch/x86_64/paging.c:245-262 | frees a table exactly if it has no present entry, and goes on to the one above only then |
| Vm.Machine.UnmapPage | kernel/arch/x86_64/paging.c:209-264 | succeeds exactly on a 4 KiB leaf seen with U; that page is mapped no more and every other page as before, its frame is let go of once, its entry and the tables it leaves empty go, anything else is left alone |
| Vm.Machine.VirtToPhys | kernel/arch/x86_64/paging.c:345-369 | the software walk gives the address the translation gives, the frame times 4096 and the offset in the page; 0 if there is none |
| Vm.Machine.AllocAndMap | kernel/mm/vmm.c:34-44 | one round: a zeroed fresh frame is mapped, or given back if it cannot be, which means that frames ran out or a 1 GiB leaf is in the way |
| Vm.Machine.AllocUserPages | kernel/mm/vmm.c:29-46 | on success exactly the pages of an unmapped range are mapped, each to its own fresh zeroed frame, with W as asked, and nothing else in use changes; on failure the same holds of the first i pages for some i below the number asked for; with an aligned address and a page to map it fails only when at most one frame is left |
| Vm.Machine.UnmapUserRange | kernel/mm/vmm.c:52-58 | a held page r goes if and only if virt / 4096 <= r and r * 4096 < virt + len; every other page is as it was |
| VmSpec.SpansByte | kernel/mm/vmm.c:52-58 | the page of every byte of a range is one of the pages of the range |
| Vm.Machine.AllocThenUnmap | kernel/mm/vmm.c:29-58 | allocating and unmapping a range is the identity on the bitmap, the free count, the tables and every translation, if no table was empty |
| VmRange.HoldsMore | kernel/mm/vmm.c:29-46 | mapping one fresh page adds it to what is held and keeps all else |
| VmRange.BlankMore | kernel/mm/vmm.c:29-46 | mapping one more zeroed page leaves all pages held so far zeroed, in user leaves with W as asked |
| VmRange.FailHolds | kernel/mm/vmm.c:34-44 | a page that could not be mapped leaves the pages held so far, every other translation and every other frame in use as they were |
| VmRange.HoldsLess | kernel/mm/vmm.c:52-58 | unmapping a held page takes it, and tables only it needed, out again |
| VmRange.HoldsNoneIsStart | kernel/mm/vmm.c:29-58 | with nothing held any more the bitmap, the set of tables and every translation are those of the start |
| VmProt.SetProtRange | kernel/arch/x86_64/paging.c:269-299 | with the pages r of the range those with virt / 4096 <= r and r * 4096 < virt + len: succeeds if and only if every one is a 4 KiB user leaf; the pages before the first that is not have the asked W and their old frame, U and flags, and no other page changes |
| Identity.InitIdentity | kernel/arch/x86_64/paging.c:26-75 | after success the processor finds at page q frame q, writable and kernel-only, if q is one of the first 512 or its 2 MiB start below the ceiling and below 512 GiB, and nothing at any other page; it fails only for want of frames |
| Identity.BigStep | kernel/arch/x86_64/paging.c:59-62 | each 2 MiB entry adds its 512 pages to the identity map and changes no other |
| Identity.IdentIsKernel | kernel/arch/x86_64/paging.c:26-75 | the identity map grants users nothing, as cloning it requires |
| Fork.CopyUserLeaf | kernel/mm/vmm.c:108-126 | a 4 KiB user leaf becomes a copy in a frame of its own, byte-equal if its frame is memory in use; it is left out if and only if no frame is free |
| Fork.CopyBigLeaf | kernel/mm/vmm.c:132-161 | a user 2 MiB leaf becomes a table of 512 copied pages, less those for which there was no frame; none is missing if and only if 513 frames were free |
| Fork.CopyLevel | kernel/mm/vmm.c:90-207 | one recursion of the copy: every entry of the subtree is copied in frames that were free, or left out (in the PML4: shared); nothing is left out if and only if as many frames were free as the subtree needs, which are then what it took, and otherwise it took all there were; without a frame for the table itself nothing changes; the parent is only read |
| Fork.CloneLevel | kernel/mm/vmm.c:212-261 | the same for the kernel template, whose leaves are shared |
| VmChild.ChildSpace | kernel/mm/vmm.c:90-261 | the child of a fork or clone, complete or not, is an address space satisfying the invariant |
| VmChild.ChildView | kernel/mm/vmm.c:90-261 | page by page, whether frames ran out or not: in a shared PML4 slot the child has the parent's own page; elsewhere it has nothing, or the same access to the same kernel frame or to a copy in a frame of its own, byte-equal if the parent's frame is memory in use |
| VmChild.SharedView | kernel/mm/vmm.c:197-205 | a shared PML4 slot leads to the parent's own table and shows what the parent sees |
| VmChild.SeparateIff | kernel/mm/vmm.c:197-205 | parent and child have a table in common if and only if some PML4 slot of the parent got no table in the child |
| VmNeed.SharesIff | kernel/mm/vmm.c:192-205 | a PML4 slot is shared if and only if it is in use and the frames free before the call are at most the PML4 and what the slots before it need; nothing is shared if and only if that is so of no slot |
| VmNeed.GotMore | kernel/mm/vmm.c:90-207 | an entry that leads on got a table if and only if a frame was left when its turn came |
| VmFlags.ForkShares | kernel/mm/vmm.c:182-207 | a space with one free frame, a state a fork of it may leave, and that every fork of it shares its PML4 slot |
| VmCopy.CopiedSpace | kernel/mm/vmm.c:182-207 | the child is an address space satisfying the invariant, in its own tables |
| VmCopy.CopiedView | kernel/mm/vmm.c:90-207 | page by page, the child is mapped exactly where the parent is, with the same W and U; kernel pages keep their frame, user pages have a fresh frame, with equal bytes if the parent's frame is memory in use |
| VmCopy.CopiedFlags | kernel/mm/vmm.c:90-161 | a mapped page of the child keeps the parent's PWT, PCD, A, D, G and NX if and only if it is not in a user 2 MiB leaf with A, D, G or NX set |
| VmFlags.ForkLosesNx | kernel/mm/vmm.c:132-161 | a space, with exactly the free frames a fork needs, and a complete fork of it, in which page 0 has lost NX |
| VmCopy.ParentUntouched | kernel/mm/vmm.c:90-207 | the parent keeps its tables and translations and shares no table with the child |
| Destroy.DestroyLevel | kernel/mm/vmm.c:266-284 | every table of the subtree is freed once and every 4 KiB user leaf dereferenced once; all other frames are untouched |
| Spaces.ForkSpace | kernel/mm/vmm.c:182-207 | vmm_copy_user_page_tables as a whole: complete if and only if as many frames are free as it needs, and that many fewer are free afterwards; otherwise none is left, and it shares exactly the PML4 slots SharesIff says; 0 and no change if and only if no frame is free |
| Spaces.CloneSpace | kernel/mm/vmm.c:245-261 | vmm_clone_kernel_pml4 as a whole: the same |
| Spaces.DestroySpace | kernel/mm/vmm.c:286-291 | the kernel template and a null PML4 are left alone, any other space goes |
| Spaces.DestroyCopy | kernel/mm/vmm.c:182-291 | a fork or a clone that is complete, or at least shares no table, then destroying it: bitmap and free count are exactly as before and every frame in use then is untouched |
| VmLife.CopyThenGone | kernel/mm/vmm.c:182-291 | the frames a copy takes are the frames its destruction gives back, each once |
| VmWorld.LocalStep | kernel/mm/vmm.c:15-291 | a step that writes only what its task owns or what was free keeps all spaces disjoint, and no other task can see it |
| VmWorld.NextKeeps | kernel/mm/vmm.c:15-291 | every map, failed map, unmap, store, change of protection, fork or clone (complete, or cut short without sharing a table) and destroy keeps the world invariant and changes no other task's translations or memory |
| VmWorld.RunIsolated | kernel/mm/vmm.c:90-207 | over every interleaving of such steps by other tasks, a task that does not step finds its translations and user memory as they were |
| VmCount.NextTight | kernel/mm/vmm.c:15-291 | each of these steps leaves in use exactly the reserved frames and those of live spaces, none of them both |
| VmCount.RunTight | kernel/mm/vmm.c:15-291 | so over every run, by any tasks in any order: no frame is lost and none is in two places |
| VmCount.AllGone | kernel/mm/vmm.c:266-291 | once every space is destroyed, exactly the reserved frames are in use |
| Elf.Loader.Reset | kernel/proc/elf.c:92-97 | the cleared bitmaps agree with a load that has mapped nothing |
| Elf.Loader.EnsureIn | kernel/proc/elf.c:58-80 | after success the page is mapped by this load and its bit says so; a page already mapped is kept, so no byte changes |
| Elf.Loader.EnsureUserPage | kernel/proc/elf.c:119-150 | dispatch over the windows: success only inside the program or interpreter window |
| Elf.Loader.MapPages | kernel/proc/elf.c:157-164 | on success exactly the pages of the segment join those mapped, and no byte changes |
| Elf.Loader.PutAll | kernel/proc/elf.c:167-200 | the page-by-page copy through the physical frames writes exactly the given bytes at the given virtual addresses |
| Elf.Loader.MapSegment | kernel/proc/elf.c:152-202 | on success byte j of the segment, as the processor walks to it, is the file's byte at off + j if j < filesz and zero up to memsz, every byte outside it is as it was, and exactly its pages were added; on failure the segment wraps, is not in the file, or has a page that is outside the windows or cannot be mapped |
| Elf.FileTest | kernel/proc/elf.c:167-169 | the 64-bit test that a segment is in the file is sound if and only if the sum does not wrap, or wraps to more than the file has |
| Elf.FileTestWraps | kernel/proc/elf.c:167-169 | an offset and a size that pass the test and are not in the file |
| Elf.Loader.LoadLoads | kernel/proc/elf.c:204-238 | all PT_LOADs in order: each address holds what the last segment covering it asks for; base, end and program header address as the headers say; it fails only if there is nothing to load or a segment is bad in that sense |
| Elf.Loader.LoadImage | kernel/proc/elf.c:301-340 | reset and load of a static program; base, end and program header address as the headers say |
| Elf.Loader.LoadDynamic | kernel/proc/elf.c:342-424 | one reset, then program and interpreter with their biases; the reported end is just past the last byte of the two |
| Elf.BiasIs | kernel/proc/elf.c:366-388 | a program is moved up to its window if and only if one of its segments starts below 1 MiB |
| ElfSpec.MapsAll | kernel/proc/elf.c:58-80 | mapping one more page keeps one frame per page, every byte, and everything in use outside this load |
| ElfSpec.WantDisjoint | kernel/proc/elf.c:204-238 | if no byte is in two segments, the last segment covering a byte is the only one |
| ElfSpec.ReadBack | kernel/proc/elf.c:152-238 | a load is faithful: walked by the processor, byte j of every segment is writable user memory that holds the file's byte at off + j if j < filesz and zero otherwise, segments that share a page included |
| ElfSpec.ReadBackBelow | kernel/proc/elf.c:342-424 | the same bytes of the program after its interpreter was loaded without a reset in between |
| ElfSpec.Extent | kernel/proc/elf.c:221-224 | the reported base and end bound every loaded byte and are reached |
| Heap.Pool.constructor | kernel/mm/heap.c:26-43 | one free block that fills the pool |
| Heap.NeedHolds | kernel/mm/heap.c:56-64 | the rounded block size has room for the header and the request if and only if the 64-bit sum does not wrap |
| Heap.NeedTight | kernel/mm/heap.c:56-64 | the block is a whole number of 16 bytes and wastes less than 16 unless it is the least block |
| Heap.NeedWraps | kernel/mm/heap.c:56-64 | the 23 largest sizes get the least block |
| Heap.Pool.SplitNode | kernel/mm/heap.c:45-54 | the words split_node writes |
| Heap.Pool.Malloc | kernel/mm/heap.c:56-79 | the first block on the list that is large enough, cut if what is left makes a block; the contents of live blocks are untouched |
| Heap.Pool.Find | kernel/mm/heap.c:98-117 | whether a block is on the free list, and after which |
| Heap.Pool.FindEnd | kernel/mm/heap.c:119-132 | the free block that ends at an address, if any |
| Heap.Pool.Free | kernel/mm/heap.c:81-137 | joined with a free block after it and one before it, else put at the head; the contents of other live blocks are untouched |
| Heap.AllocKeeps | kernel/mm/heap.c:56-79 | kmalloc keeps: blocks tile the pool, the list names the free ones once each, no two free blocks touch |
| Heap.FreeKeeps | kernel/mm/heap.c:81-137 | kfree keeps the same |
| Heap.FitsIffGap | kernel/mm/heap.c:56-137 | some free block is large enough if and only if some gap between live blocks is |
| Heap.AllocIffGap | kernel/mm/heap.c:56-79 | kmalloc succeeds if and only if some gap between live blocks has room |
| Heap.AllocLive | kernel/mm/heap.c:56-79 | the block handed out was not live, is large enough, exceeds the request by less than a least block, and is the only change to what is live |
| Heap.FreedLive | kernel/mm/heap.c:81-137 | freeing a block takes that block and no other from what is live |
| Heap.NoLiveIsInitial | kernel/mm/heap.c:81-137 | with every block freed the heap is the single initial block again |
| Heap.RunRestores | kernel/mm/heap.c:26-137 | over every run the invariant holds, and a run that freed all it allocated is back at the start |
| FatDisk.PutThenGet | kernel/fs/fat.c:70-108 | writing a FAT16 or FAT32 entry changes that entry and no other, and keeps the top four bits of a FAT32 one |
| FatDisk.PutRep | kernel/fs/fat.c:692-729 | fat_put to every copy is one entry update of the FAT as a value, with all copies equal |
| FatDisk.Volume.Get | kernel/fs/fat.c:70-108 | the entry: on FAT32 the low 28 bits of the four bytes at 4c % 512 of sector fat0 + 4c / 512, on FAT16 the two bytes at 2c |
| FatDisk.Volume.Put | kernel/fs/fat.c:692-729 | one entry updated in all copies; no sector changes but that of the entry in each copy, and there no byte but those of the entry, whose top four bits stay on FAT32 |
| FatDisk.CopiesEqual | kernel/fs/fat.c:692-729 | sector i of copy f of the FAT, at fat0 + f * fatSz + i, is sector i of the first |
| FatDisk.Volume.ReadClus | kernel/fs/fat.c:119-122 | the sector read is dataLba + (c - 2) * spc + s of the disk |
| FatDisk.Volume.WriteClus | kernel/fs/fat.c:119-122 | sector dataLba + (c - 2) * spc + s of the disk is written and no other; it changes that cluster and neither FAT nor root |
| FatDisk.Volume.ZeroCluster | kernel/fs/fat.c:731-741 | every byte of the cluster is zero |
| FatChain.ChainDistinct | kernel/fs/fat.c:110-117 | a chain that ends visits no cluster twice |
| FatChain.ChainUnique | kernel/fs/fat.c:110-117 | the chain from a cluster is unique |
| FatChain.ExtendOk | kernel/fs/fat.c:743-757 | linking a free cluster to one chain keeps all chains ended and disjoint |
| FatChain.LinkFree | kernel/fs/fat.c:743-757 | linking a free cluster to a chain leaves one free cluster fewer |
| FatChain.AllocCluster | kernel/fs/fat.c:743-757 | the lowest free cluster becomes a zeroed chain of its own; 0 exactly if none is free |
| FatChain.FreeChain | kernel/fs/fat.c:896-903 | terminates and leaves what FreedFrom says, wherever it starts, as long as it stays among the clusters of the volume |
| FatChain.InRangeStays | kernel/fs/fat.c:896-903 | it does on every FAT whose entries are in range, cyclic ones included |
| FatChain.ChainStaysIn | kernel/fs/fat.c:896-903 | it does on every chain that ends, whatever the rest of the FAT holds |
| FatChain.FreedIsCleared | kernel/fs/fat.c:896-903 | on a chain that ends, exactly its entries are cleared |
| FatChain.ClearedOk | kernel/fs/fat.c:896-903 | the other chains survive |
| FatFile.Seek | kernel/fs/fat.c:566-574 | the cluster of a byte position, found exactly if the chain is that long |
| FatFile.ReadFile | kernel/fs/fat.c:549-605 | the slice of the file at the position, cut at the size, and the position moves by what was read; byte p of the file is byte p % 512 of sector dataLba + (chain[p / size] - 2) * spc + p % size / 512 for a cluster of size bytes |
| FatFile.FileOnDisk | kernel/fs/fat.c:549-605 | byte p of a file with a given chain is byte p % 512 of sector dataLba + (chain[p / size] - 2) * spc + p % size / 512 |
| FatFile.WriteData | kernel/fs/fat.c:1339-1420 | on success the buffer is on the disk, byte by byte, in the sectors of the file from the position on, and the other bytes of the file are as they were, in no more clusters than that takes; chains stay ended and disjoint, and nothing else changes, on failure too; it succeeds if and only if the file's clusters and the free ones together have room |
| FatFile.OthersSame | kernel/fs/fat.c:1339-1420 | writing the data changes no other file's bytes |
| FatFile.FlatWrite | kernel/fs/fat.c:1380-1396 | rewriting one cluster replaces its stretch of the bytes |
| FatDir.DecodeEncode | kernel/fs/fat.c:810-832 | name, attributes, cluster, size and time stamps written into an entry are read back |
| FatDir.DecodeBytes | kernel/fs/fat.c:172-238 | which bytes of an entry the attributes, cluster, size and time stamps are read from |
| FatDir.SlotIsOnDisk | kernel/fs/fat.c:172-238 | the sector and the bytes of the disk that slot k of a directory, fixed or chained, is in |
| FatDir.FindEntry | kernel/fs/fat.c:172-238 | the entry is found exactly if a live one of that name exists, whether or not the scan stops at an end marker |
| FatDir.EntBytes | kernel/fs/fat.c:172-238 | a slot holds the name exactly if its 11 bytes are the name, the first is neither 0 nor 0xE5, and byte 11 is not 0x0F |
| FatDir.NoneAfterEnd | kernel/fs/fat.c:172-238 | nothing live follows an end marker, so the scanners agree |
| FatDir.FindFree | kernel/fs/fat.c:760-806 | the first free slot, or none and the last cluster of the directory |
| FatEdit.AddLook | kernel/fs/fat.c:810-832 | an entry in the first free slot answers its name, changes no other answer, and keeps the end marker rule |
| FatEdit.DelLook | kernel/fs/fat.c:1007-1057 | a deleted entry's name is gone, no other answer changes |
| FatEdit.EditLook | kernel/fs/fat.c:835-892 | an entry rewritten with its name changes its own answer only |
| FatEdit.GrowLook | kernel/fs/fat.c:760-806 | a zeroed cluster at the end of a directory changes no answer |
| FatRename.FindSlot | kernel/fs/fat.c:760-806 | a free slot, with a further cluster if needed; it fails exactly if there is no room, and then changes nothing |
| FatRename.DeleteEntry | kernel/fs/fat.c:1007-1057 | finds exactly an entry that is there, and marks it deleted |
| FatRename.UpdateDotDot | kernel/fs/fat.c:1191-1205 | the second entry of the directory names the new parent, nothing else changes |
| FatRename.RenameCross | kernel/fs/fat.c:1210-1239 | to an absent name: exactly one entry moves, with cluster, size, attributes and stamps, and a moved directory's ".." follows; it fails exactly if the target cannot grow, without effect |
| FatTree.HasAncestor | kernel/fs/fat.c:1244-1264 | the walk along ".." ends, and finds the target if and only if it is a proper ancestor; a FAT32 ".." of 0 leads to the root |
| FatTree.MoveRanks | kernel/fs/fat.c:1266-1287 | hanging a directory below one outside its own subtree leaves no cycle |
| FatTree.MoveKeepsTree | kernel/fs/fat.c:1210-1287 | the directory graph stays a tree in which every ".." is right |
| FatPaths.MoveWalks | kernel/fs/fat.c:1210-1287 | for every path of directory names: what was reached below the old path is reached below the new one, nothing through the old one, every other path leads where it led |
| FatPaths.MovePaths | kernel/fs/fat.c:1210-1287 | for every path, to a file, a directory or nothing: new/x resolves to what old/x did, nothing at or below the old path, every other path as before |
| FatOps.ResolvePath | kernel/fs/fat.c:244-283 | finds exactly what the tree says, directory by directory |
| FatOps.LookUp | kernel/fs/fat.c:172-238 | find_in_dir on a directory of the tree |
| FatOps.LookIn | kernel/fs/fat.c:172-238 | find_in_dir on any one directory finds exactly a live entry of the name |
| FatOps.RenamePath | kernel/fs/fat.c:1266-1287 | succeeds if and only if the entry exists, no directory would move into itself or below, and there is room; otherwise nothing changes |
| FatOps.UpdateEntry | kernel/fs/fat.c:835-892 | the entry gets its new start and size and keeps the rest |
| FatOps.WriteFile | kernel/fs/fat.c:1339-1426 | after a write to a root file the buffer is on the disk, byte by byte, in the sectors of the file; its bytes, directory entry and handle agree and lead to one chain, all other files, chains and directory answers are as they were, and the next call may follow; it succeeds if and only if the file's clusters and the free ones together have room |
| FatOps.WriteThenRead | kernel/fs/fat.c:549-605 | a file written, opened again through its directory entry and read from the start is the old one with the buffer at the old position |
| FatOps.WriteBelow | kernel/fs/fat.c:1339-1426 | a write to a file outside the root leaves its own directory entry as it was, which is right if and only if the write ends within the file; the root's entry of that name, if any, then leads to this file |
| FatCases.BelowGoesStale | kernel/fs/fat.c:1339-1426 | a volume, given by its sectors, with a file in a subdirectory that such a write applies to |
| FatOps.UnlinkFile | kernel/fs/fat.c:1157-1166 | the entry goes, exactly the file's chain is freed, and as many clusters become free as it had |
| FatOps.ClearedCount | kernel/fs/fat.c:896-903 | freeing a chain of n clusters makes n more free |
| FatOps.LinkedCount | kernel/fs/fat.c:743-757 | linking a cluster makes one fewer free |
| FatOps.CreateFile | kernel/fs/fat.c:1289-1337 | a zeroed cluster of its own and an entry of size 0, all chains in order afterwards, the root's longer if it grew; refused if the name is there; otherwise it fails without effect if and only if no cluster is free, and fails with the cluster left allocated, in no chain and no directory, if and only if the root has no free slot and cannot grow |
| FatCases.CreateWastes | kernel/fs/fat.c:1306-1330 | a volume, given by its sectors, on which a create wastes the only cluster |
| Calendar.CivilIsSum | kernel/arch/x86_64/timer.c:87-96 | the closed form is the sum of the Gregorian month lengths since 1970, for every month from then on |
| Calendar.YearFits | kernel/fs/fat.c:480-514 | the year-of-era quotient picks the year whose days hold the day |
| Calendar.FromDaysBack | kernel/fs/fat.c:480-514 | every day number has a date that the calendar has, whose day number it is |
| Calendar.ToDaysBack | kernel/fs/fat.c:480-514 | every date of the calendar from 1970 on is the date of its day number |
| Calendar.RoundTrip | kernel/fs/fat.c:458-514 | Unix time to FAT stamp and back is the time rounded down to an even second if and only if the time is in the years 1980 to 2107 or is 0 or 1 |
| Calendar.StampFields | kernel/fs/fat.c:456-478 | years from 1980, month, day, hours, minutes and seconds in twos are at their bits of a stamp, and mean the days before that date and the seconds of that time |
| Sched.Scheduler.PickNext | kernel/proc/task.c:142-155 | the first ready task in circular order after the given one: none between the two is ready; none exactly if no task is ready |
| Sched.Scheduler.Activate | kernel/proc/task.c:130-140 | CR3 is written only if the PML4 changes |
| Sched.Scheduler.Yield | kernel/proc/task.c:222-237 | the yielding task is ready again, the first ready one after it runs, and no other changes; nothing changes if there is none |
| Sched.Scheduler.StartUser | kernel/proc/task.c:239-253 | the first ready task runs; false where the source panics |
| Sched.Scheduler.Exit | kernel/proc/task.c:157-220 | the exiting task is a zombie with the code it was given and without an address space, its own and no other's is destroyed, and another task runs or CR3 is back on the kernel's tables |
| Sched.ExitCode | kernel/proc/task.c:157-220 | the zombie has the code exit was given, under the pid and parent it had |
| Sched.Scheduler.Fork | kernel/proc/task.c:285-343 | a child exactly if there is a slot, a stack and a copied space |
| Sched.Scheduler.Wait | kernel/proc/task.c:418-458 | the first zombie child that the argument means is reaped and its pid and status returned: any child for 0 and -1, the child with that pid for a positive number, the one with its absolute value for a group; 0 with live such children only, -1 with none |
| Sched.CodeWaits | kernel/proc/task.c:157-458 | over every run, the code a task exited with is in its slot, under its pid and parent, until it is collected |
| Sched.ExitSafe | kernel/proc/task.c:191-219 | when an address space is destroyed CR3 has left it |
| Sched.ExitKeeps | kernel/proc/task.c:157-220 | exit keeps the invariant |
| Sched.StepKeeps | kernel/proc/task.c:130-458 | start, yield, fork, exit and wait keep: at most one task runs, it is the current one, and CR3 holds its PML4, which is not destroyed |
| Sched.RunInv | kernel/proc/task.c:130-458 | that invariant in every state of every run |
| Sched.SwitchCloser | kernel/proc/task.c:142-155 | a switch to another task brings a ready task strictly closer, in circular distance |
| Sched.Fair | kernel/proc/task.c:142-253 | a task that stays ready sees fewer than TASK_MAX - 1 switches to others before it runs, and one more if no task was current at the start |
| Files.Tables.Install | kernel/fs/vfs.c:382-393 | the lowest free descriptor names the file with one reference; nothing changes exactly if no descriptor is free |
| Files.Tables.Close | kernel/fs/vfs.c:408-436 | the slot is cleared and one reference let go of, the file closed and forgotten by its pipe if that leaves none; refused exactly for an unused descriptor, and consoles stay |
| Files.Tables.Exit | kernel/proc/task.c:167-189 | every slot is empty or names a console, no other task's descriptors change, and each file but consoles has lost as many references as slots named it and is closed, and forgotten by its pipe, exactly if it lost one and none is left |
| Files.Tables.Dup | kernel/proc/syscall.c:428-450 | the new slot names the file of the old one and no other slot changes; that file has one more reference, the one replaced at a descriptor above 2 one less, and is closed if that leaves none; refused exactly for an unused or out-of-range descriptor |
| Files.Tables.Fork | kernel/proc/task.c:317-324 | the child's slots are the parent's, and each file has as many more references as slots of the parent name it |
| Files.Tables.Open | kernel/proc/syscall.c:124-141 | a fresh file with one reference at the lowest free descriptor, closed again if there is none |
| Files.Tables.Pipe | kernel/proc/syscall.c:593-619 | both ends with one reference each at the two lowest free descriptors; with fewer than two no descriptor changes |
| Files.Dup2Keeps | kernel/proc/syscall.c:428-450 | dup2 keeps: references at least slots, and slots name open files |
| Files.ExitKeeps | kernel/proc/task.c:167-189 | so does exit |
| Files.ExitLeaves | kernel/proc/task.c:167-189 | the state exit leaves, slot by slot, file by file and pipe by pipe |
| FileLeaks.ExitVacant | kernel/proc/task.c:167-189 | a task that has exited leaves slots that name no file but consoles, as fork needs |
| Files.ForkKeeps | kernel/proc/task.c:317-324 | so does fork |
| Files.PipeKeeps | kernel/proc/syscall.c:593-619 | so does pipe |
| Files.StepKeeps | kernel/fs/vfs.c:382-436 | so does every step |
| Files.RunKeeps | kernel/fs/vfs.c:382-436 | over every interleaving of open, pipe, dup2, fork, close and exit |
| Files.NeverClosed | kernel/fs/vfs.c:408-436 | a file some slot names is open |
| Files.NoEarlyEof | kernel/fs/pipe.c:26-50 | the end-of-file test fails while any slot names the write end |
| FileLeaks.Dup2Exact | kernel/proc/syscall.c:428-450 | with references equal to slots before, they are after dup2 if and only if it did not replace a file other than a console at descriptor 0 to 2 |
| FileLeaks.Dup2Leak | kernel/proc/syscall.c:428-450 | a state in which dup2 leaves an open file with a reference that no slot names |
| FileLeaks.ForkExact | kernel/proc/task.c:317-324 | fork keeps references equal to slots if and only if the slots it fills named no file |
| FileLeaks.PipeExact | kernel/proc/syscall.c:593-619 | pipe keeps them equal, on its failure paths too |
| FileLeaks.OpenExact | kernel/proc/syscall.c:124-141 | so does open |
| FileLeaks.DropExact | kernel/fs/vfs.c:408-436 | so does close |
| FileLeaks.ExitExact | kernel/proc/task.c:167-189 | so does exit |
| FileLeaks.RunExact | kernel/fs/vfs.c:382-436 | over every run without such a dup2, and without a fork into slots that name files, references equal slots |
| FileLeaks.PipeStrands | kernel/proc/syscall.c:593-619 | sys_pipe leaves an open end that nothing names if and only if fewer than two descriptors are free |
| FileLeaks.PipeStrandsBoth | kernel/proc/syscall.c:593-619 | a state in which a pipe leaves both its ends open and unnamed |
| FileLeaks.RunPairs | kernel/proc/syscall.c:593-619 | over every run, while a write end has a descriptor its read end has references or is forgotten |
| Pipes.Pipe.Read | kernel/fs/pipe.c:26-50 | the oldest bytes, as many as asked for or there, and their number is returned; with none, end of file or try again as the references of the write end say |
| Pipes.Pipe.Write | kernel/fs/pipe.c:52-77 | as much as fits is appended in order and its number returned, or try again if nothing was; nothing if the read end is there without references |
| Pipes.ReadNotEof | kernel/fs/pipe.c:26-50 | no read returns end of file while any descriptor of any task names the write end |
| Pipes.EofExact | kernel/fs/pipe.c:26-50 | while references equal slots, a pipe is at end of file if and only if no descriptor of any task names its write end |
| Pipes.LeakHidesEof | kernel/proc/syscall.c:428-450 | two calls after which no descriptor names the write end and a read of the empty pipe says to try again |
| Pipes.WriteNotStopped | kernel/fs/pipe.c:52-96 | the test for a reader never stops a write through a descriptor: min(len, room) bytes are appended |
| Pipes.AppendsWithoutReader | kernel/fs/pipe.c:52-96 | a run after which no slot names the read end, and a byte written is appended |
| Pipes.ReadIsPrefix | kernel/fs/pipe.c:26-77 | over every run of reads and writes, what was read is a prefix of what was written, and the rest is in the buffer |
| Virtq.VirtQueue.constructor | kernel/drv/virtio_net.c:207-247 | all 64 descriptors are on the free list |
| Virtq.VirtQueue.AllocDesc | kernel/drv/virtio_net.c:249-259 | the head of the free list, NIL exactly if it is empty |
| Virtq.VirtQueue.Post | kernel/drv/virtio_net.c:520-523 | the descriptor enters the available ring without overwriting an unseen one |
| Virtq.VirtQueue.ReclaimOne | kernel/drv/virtio_net.c:494-502 | one used descriptor goes back to the free list |
| Virtq.VirtQueue.Send | kernel/drv/virtio_net.c:487-526 | all used descriptors are reclaimed and one is posted after those posted, unless the device has all |
| Virtq.VirtQueue.Receive | kernel/drv/virtio_net.c:528-570 | the oldest used descriptor is handed over and posted again |
| Virtq.VirtQueue.Refill | kernel/drv/virtio_net.c:311-329 | every free descriptor is posted, in order |
| Virtq.StepKeeps | kernel/drv/virtio_net.c:207-570 | every step of driver or conforming device keeps each descriptor in exactly one place |
| Virtq.RunKeeps | kernel/drv/virtio_net.c:207-570 | so in every run |
| Virtq.Sizes | kernel/drv/virtio_net.c:249-266 | the places together have 64 descriptors |
| Virtq.IdxEqual | kernel/drv/virtio_net.c:534-536 | 16-bit indices compare as the true counts do, as at most 64 are outstanding |
| Virtq.SlotFree | kernel/drv/virtio_net.c:520-523 | the next ring slot is none still in the window |
| Virtq.SlotOf | kernel/drv/virtio_net.c:520-523 | a 16-bit index falls on the slot of the count it stands for, as 64 divides 65536 |
| Tcp.Socket.Send | kernel/net/tcp.c:261-282 | at most 1400 bytes go out once, numbered snd_nxt, which moves by their number; they are queued if the ring has room; what is sent and unacknowledged stays queued if and only if it has, or there is nothing to send |
| Tcp.Socket.Ack | kernel/net/tcp.c:457-469 | the 32-bit comparisons and the drain as they are; what the standard says if and only if AckExact's condition holds |
| Tcp.Socket.Retransmit | kernel/net/tcp.c:544-568 | every entry of the ring, from the oldest on, goes out again with its original number and bytes, a full ring included, or the socket is reset, exactly if the oldest entry has used up its retries |
| Tcp.InOrder | kernel/net/tcp.c:261-282 | entries follow one another without overlap below snd_nxt |
| Tcp.AckKeeps | kernel/net/tcp.c:457-469 | whatever number is acknowledged, wrapped or never sent, the queue stays in order and within its retries |
| Tcp.DrainExact | kernel/net/tcp.c:457-469 | dropping from the front by 32-bit comparison leaves exactly the entries not fully acknowledged if and only if no wrap is between the acknowledged number and an entry compared with it |
| Tcp.AckExact | kernel/net/tcp.c:457-469 | an acknowledgement is handled as the standard says if and only if its number is beyond what was sent just when a wrap hides it, and the numbers compared after that are on one lap of the counter |
| Tcp.WrapLoses | kernel/net/tcp.c:457-469 | a segment across the wrap that is dropped with none of its bytes acknowledged |
| Tcp.UnaExact | kernel/net/tcp.c:460-461 | snd_una stays at most snd_nxt if and only if no more than was sent is acknowledged, or a wrap hides it |
| Tcp.UnsentLoses | kernel/net/tcp.c:457-469 | without a wrap, an acknowledgement of data never sent after which a byte is dropped unacknowledged |
| Tcp.SentExact | kernel/net/tcp.c:261-282 | with everything unacknowledged queued before a send, it is after if and only if there is nothing to send or the ring has room |
| Tcp.FullLoses | kernel/net/tcp.c:261-282 | sixteen segments queued, and a seventeenth that is sent and not queued |
| Tcp.AcceptedBacked | kernel/net/tcp.c:457-469 | an acknowledgement handled as the standard says keeps everything unacknowledged queued |
| Tcp.ResendsAll | kernel/net/tcp.c:544-568 | while it is, a retransmission sends every packet not fully acknowledged exactly once more |
| Tcp.RunBacked | kernel/net/tcp.c:261-568 | over every run of sends with room, acknowledgements handled as the standard says and retransmissions, everything unacknowledged is queued |
| Tcp.ResentKeeps | kernel/net/tcp.c:544-568 | a resend keeps the invariant |
| Tcp.RunKeeps | kernel/net/tcp.c:261-568 | the invariant in every run |
| Tcp.AtMostFour | kernel/net/tcp.c:544-568 | over every run from a fresh socket no segment goes out more than four times |
| RamTree.PathUnique | kernel/fs/ramfs.c:42-97 | a node has one path |
| RamTree.HasPath | kernel/fs/ramfs.c:42-97 | every used node is reached from /tmp along a path of names |
| RamTree.SubIsPrefix | kernel/fs/ramfs.c:461-469 | a node is below another if and only if the other's path begins its own |
| RamTree.AddPaths | kernel/fs/ramfs.c:114-161 | one path more, every other resolves as it did |
| RamTree.DropPaths | kernel/fs/ramfs.c:411-433 | one path less, every other resolves as it did |
| RamTree.DropIff | kernel/fs/ramfs.c:389-408 | taking a node out leaves a tree if and only if nothing was in it |
| RamTree.RenameIff | kernel/fs/ramfs.c:437-473 | renaming leaves a tree if and only if the new directory is not the node or below it |
| RamTree.RenamePaths | kernel/fs/ramfs.c:437-473 | what every path resolves to after a rename |
| Ramfs.PartsJoined | kernel/fs/ramfs.c:54-97 | names of 1 to 31 characters joined by slashes are read back as they went in |
| Ramfs.PartsFit | kernel/fs/ramfs.c:54-97 | every name read is 1 to 31 characters long and has no slash |
| Ramfs.PartsExact | kernel/fs/ramfs.c:54-97 | a list of names comes back from its path if and only if none is longer than 31 characters |
| Ramfs.BelowJoined | kernel/fs/ramfs.c:99-112 | such names joined after /tmp/ are read back as a path below /tmp |
| Ramfs.PartsOfLong | kernel/fs/ramfs.c:69-72 | a name of 32 characters is read as two |
| Ramfs.Strip | kernel/fs/ramfs.c:99-112 | what follows /tmp |
| Ramfs.RelIs | kernel/fs/ramfs.c:99-112 | a path is below /tmp if and only if it is slashes, tmp and then nothing or a slash; what follows those slashes is the rest |
| Ramfs.Fs.constructor | kernel/fs/ramfs.c:494-505 | /tmp alone is a tree |
| Ramfs.Fs.FindChild | kernel/fs/ramfs.c:42-51 | the child of that name, -1 exactly if there is none |
| Ramfs.Fs.ResolveParent | kernel/fs/ramfs.c:54-97 | the directory of the last name and that name, found exactly if the directory is there |
| Ramfs.Fs.Resolve | kernel/fs/ramfs.c:54-97 | the node of the path, -1 exactly if there is none |
| Ramfs.Fs.Mkdir | kernel/fs/ramfs.c:114-136 | a new directory at the path exactly if its parent directory is there, the name is not, and a slot is free; every other path leads where it led and no node that was there changes; /tmp itself is accepted without effect |
| Ramfs.Fs.CreateFile | kernel/fs/ramfs.c:138-161 | the same for a file, whose node is returned |
| Ramfs.Fs.Rmdir | kernel/fs/ramfs.c:411-433 | exactly an empty directory goes, and every path that did not lead to it leads where it led |
| Ramfs.Fs.Unlink | kernel/fs/ramfs.c:389-408 | the node goes; the table is a tree afterwards, with every other path as before, if and only if nothing was in it |
| Ramfs.UnlinkBreaks | kernel/fs/ramfs.c:389-408 | a directory with a file in it, unlinked, leaves a table that is no tree |
| Ramfs.Fs.Meets | kernel/fs/ramfs.c:461-469 | the walk up ends and meets the node exactly if the directory is the node or below it |
| Ramfs.Fs.Rename | kernel/fs/ramfs.c:437-473 | succeeds if and only if the old path is there, the new one is not, its directory is, and it does not lead through the old one; then new/x leads where old/x did, the old path nowhere, every other path where it did, and no node changes its kind |
| Ramfs.MovedPaths | kernel/fs/ramfs.c:437-473 | new/x resolves to what old/x did for every x, nothing resolves at the old path, every other path resolves as before |
| Ramfs.RefusedIsCycle | kernel/fs/ramfs.c:461-469 | with the rest in place, a rename is refused if and only if it would close a cycle |
| Ramfs.StepKeeps | kernel/fs/ramfs.c:114-473 | mkdir, create, removal of an empty node and rename keep the tree |
| Ramfs.RunKeeps | kernel/fs/ramfs.c:114-473 | /tmp is a tree with unique sibling names in every state of every run |

## Left out

- Hardware: device drivers other than the virtqueue bookkeeping, interrupts, port and MMIO access, assembly, the
  TLB and `invlpg`. CR3 is a field of the scheduler's model. Sector reads and writes succeed.
- Vm.Machine.MapPage: mapping over a user leaf that is already there does not release its frame in the source
  either; the frame's owner is not tracked.
- Vm.Machine.UnmapPage: requires that the frame of the leaf is not the frame of a table of the space.
- Vm.Machine.UnmapUserRange: requires that the user leaves of the range were mapped by `vmm_alloc_user_pages` since a
  state in which they were not; leaves from elsewhere are UnmapPage, one by one.
- Destroy.DestroyLevel: requires that no two 4 KiB user leaves of the space name one frame, as after every step of
  VmWorld.
- Spaces.DestroySpace: the same.
- `paging_set_user_range`, `paging_map_mmio` and the low, identity-mapped window of the ELF loader that uses it.
- Elf.Loader.EnsureUserPage: for pages outside that low window.
- Elf.Loader.MapPages: the same.
- Elf.Loader.MapSegment: requires filesz at most memsz, pages outside the low window, an end that does not wrap
  when rounded up to a page, and a file range that does not wrap. Program headers are given parsed; ELF header checks
  and the choice of interpreter are not modelled.
- Elf.Loader.LoadLoads: for such segments.
- Elf.Loader.LoadImage: for such segments.
- Elf.Loader.LoadDynamic: for such segments.
- Heap.Pool.Free: requires NULL or a live block; the range checks that make some other addresses harmless are not
  modelled.
- FAT paths as strings and their 8.3 encoding: the model starts from 11-byte names. FAT12, mounting, `getdents64`,
  O_TRUNC, rename inside one directory, rmdir, unlink of a directory.
- FatOps.WriteFile: for a file with one handle, whose position nothing moves past the size (there is no seek), and
  sizes below 2^32.
- FatTree.HasAncestor: requires a root whose second entry, if it is "..", does not lead elsewhere.
- FatOps.ResolvePath: for paths without "." and ".." components.
- FatRename.RenameCross: to a name that is not there; the removal of an existing target before it is not modelled.
- FatOps.RenamePath: the same.
- FatOps.UnlinkFile: for files.
- FatOps.CreateFile: for files; a directory's "." and ".." entries are not modelled.
- ramfs file contents, open handles and directory listing.
- Sched.Scheduler.StartUser: for the start of the first task, when none is current.
- Sched.Scheduler.Exit: less the files, which are Files.Tables.Exit, and the idle loop. `sys_execve` is not a step.
- Files.Tables.Open: the file systems' own open and the socket case of close.
- Virtq.VirtQueue.DeviceUse: the device is any conforming one that returns descriptors it holds; buffers and
  notifications are not modelled.
- Tcp.Socket.Send: for an established socket. Connection set-up, the receive path, FIN and timers are not modelled.
- Reading the CMOS clock and its BCD digits.
