# Verification of the xv6 kernels and their tools

A Dafny model of the logic of four course kernels derived from xv6 and of the Linux programs
beside them, with proofs of what that logic keeps over whole runs. One copy of each component
is modelled: `p2` for most of the kernel and the user programs, `p5` for checksummed files and
the image tools, `p4` for the threaded server. Check it with `dafny verify dfyconfig.toml`.

| file | models |
|---|---|
| `Umalloc.dfy` | the K&R allocator: a circular, address-ordered, coalescing free list in raw memory |
| `FileSystem.dfy` | bitmap allocator, direct and indirect block maps, `readi`, `writei`, `itrunc` |
| `Checked.dfy`, `Xor.dfy` | files whose block pointers carry the exclusive or of their block |
| `BufferCache.dfy`, `CacheLaws.dfy` | the buffer cache, the disk's request queue, the interrupt handler and the processes using them; what each process gets |
| `Namespace.dfy` | directories, link counts, references and the lifetime of inodes |
| `Image.dfy`, `Mkfs.dfy`, `Fscheck.dfy` | the image builder, the image checker, and their agreement |
| `Vm.dfy` | physical frames, page directories and tables |
| `Proc.dfy`, `ProcLaws.dfy` | `fork`, `exit`, `wait`, `sleep`, `wakeup`, `kill`; what the calls return |
| `Sched.dfy`, `SchedLaws.dfy` | the feedback scheduler; how many turns a process gets, and when it moves |
| `Pipe.dfy`, `PipeLaws.dfy` | a bounded buffer with sleep and wakeup; what readers and writers get |
| `Server.dfy`, `ServerLaws.dfy` | a bounded buffer with condition variables; what becomes of each descriptor |
| `Shell.dfy`, `ShellGrammar.dfy` | the shell's parser; the grammar of its lines |
| `Grep.dfy` | the pattern matcher |
| `Blocks.dfy`, `Sets.dfy`, `Counters.dfy`, `Wrappers.dfy` | bytes, words and bits of a block; finite sets; 32-bit counters; optional values |
| `Traces.dfy` | runs of a state machine |

How the parts fit:

- Where the C code changes state, the model is a class with the same fields, changed by methods
  with the same branches and loops; what each method does is stated by functions and predicates on
  values, and the lemmas are about those.
- `BufferCache.Run` shows that `bread`, `bwrite` and `brelse` act on a flat array of sectors;
  `FileSystem` works on that array. `FileSystem.FileSys.Run` shows that its files are byte
  sequences for exactly as long as the data area has room for them.
- The ghost fields called `owner` say which slot holds a block, which block a unit, which directory
  a frame. They turn "held exactly once" into a map, so that conservation is an equation.
- Concurrent components are state machines. A step is what a processor does under one lock, or
  one statement where no lock is held. A `State` is a value, `Next` or `After` says what a step does
  to it, and `Run` takes any list of steps and gives the states with the steps between them: each
  follows from the one before, all are sound, and the last is that of the object. What soundness
  means to a user is a lemma of its own, `StateSafe` or `StateBounds`.
- What a run means to a process is said by the `*Laws` modules without the step relations: they
  count calls, returns, requests and turns in the list of steps, and compare them with what the
  processes got. `NoDeadlock` says what it takes for nobody to be able to go on.
- The parse functions of `Shell` mirror the parser. `ShellGrammar` gives the grammar of a line as
  trees and the tokens they stand for, and shows that the parser finds the meaning of exactly the sentences.
- `balloc` compares only the start of each bitmap block with `sb.size`, so its answer may lie past
  the end. `FileSystem.FileSys.BAlloc` says exactly when it does not: some block below `sb.size` is free.
- `fscheck` and `mkfs` compute the number of bitmap blocks from different fields.
  `Mkfs.StartsAgree` says exactly when they agree on where the data begins; `Mkfs.Build` asks for that.
- `mappages` can fail and `allocuvm` does not look. `Vm.VirtualMemory.MapHeld` shows that it cannot fail there, because
  user space lies under the directory's first entry and `setupkvm` always fills that.
- `setupkvm` drops a half-built directory when memory runs out. `Vm.VirtualMemory.SetupKvm` says exactly when,
  and that the frames lost are all that were free.

## Model

| member | source | states |
|---|---|---|
| Umalloc.OneOrderedRing | p2/xv6/user/umalloc.c:24-44 | following the pointers from base visits every free block once, in address order, never two that touch, and returns to base |
| Umalloc.BlocksDisjoint | p2/xv6/user/umalloc.c:24-90 | no two blocks, free or allocated, share a unit |
| Umalloc.UnitsConserved | p2/xv6/user/umalloc.c:24-90 | the sizes of the free blocks and of the allocated blocks add up to the units obtained from sbrk |
| Umalloc.FreeKeeps | p2/xv6/user/umalloc.c:33-43 | both merges of free keep the ring ordered, disjoint and non-adjacent, and lose no unit |
| Umalloc.Allocator.FindPlace | p2/xv6/user/umalloc.c:30-32 | the search ends for every block not on the list, at the one free block after which it belongs, wrapping around the highest |
| Umalloc.Allocator.LinkBlock | p2/xv6/user/umalloc.c:33-37 | the block is linked in, merged with its upper neighbour when they touch |
| Umalloc.Allocator.Free | p2/xv6/user/umalloc.c:24-44 | the block leaves the allocated ones, nothing else does; all invariants hold and a free block at least as large contains it |
| Umalloc.Allocator.MoreCore | p2/xv6/user/umalloc.c:46-61 | sbrk gives exactly max(nunits, 4096) units, all of them in one free block, or nothing changes and 0 is returned |
| Umalloc.MoreUnits | p2/xv6/user/umalloc.c:52-53 | at least 4096 units, and no more than asked for beyond that |
| Umalloc.Allocator.Initialise | p2/xv6/user/umalloc.c:70-73 | the first call makes the one-element ring of base |
| Umalloc.Allocator.CutTail | p2/xv6/user/umalloc.c:78-84 | a larger block gives its tail, and keeps its place in the ring |
| Umalloc.Allocator.Unlink | p2/xv6/user/umalloc.c:76-84 | a block of the very size leaves the ring |
| Umalloc.Allocator.Malloc | p2/xv6/user/umalloc.c:63-90 | ends on every valid heap; 0 comes back only when no free block is large enough and sbrk fails, and then nothing changes; otherwise the block was not live, has exactly the units asked for and is live now; memory grows, by exactly one morecore, exactly when no free block is large enough and a block comes back |
| Umalloc.Allocator.Search | p2/xv6/user/umalloc.c:74-89 | the loop ends from every list, and its answer and the growth of memory are as exact as those of malloc |
| Umalloc.Allocator.Advance | p2/xv6/user/umalloc.c:74 | one step around the ring: what has been passed since freep is still too small, the block added still lies ahead, and freep is nearer |
| Umalloc.UnitsFor | p2/xv6/user/umalloc.c:69 | the units hold the bytes and a header, with less than a unit to spare |
| FileSystem.FileSys.BAlloc | p2/xv6/kernel/fs.c:53-76 | the lowest clear bit is set; it is below sb.size exactly when some block below sb.size is free |
| FileSystem.FileSys.BAllocOnDisk | p2/xv6/kernel/fs.c:53-76 | with exact accounting the block returned is in the data area and was nobody's; it succeeds exactly when a data block is free |
| FileSystem.FileSys.BFree | p2/xv6/kernel/fs.c:78-97 | the block is zero and its bit clear, nothing else changes |
| FileSystem.FileSys.FillDirect | p2/xv6/kernel/fs.c:325-335 | a new block in a direct or in the indirect pointer: the accounting stays exact and no byte of any file changes |
| FileSystem.FileSys.FillIndirect | p2/xv6/kernel/fs.c:338-341 | the same for a word of the indirect block |
| FileSystem.FileSys.BMap | p2/xv6/kernel/fs.c:319-347 | returns the block the slot holds, allocating what is missing and no more; fails exactly when the free blocks are too few; other slots and all bytes stay |
| FileSystem.FileSys.BMapDirect | p2/xv6/kernel/fs.c:325-329 | the direct case of bmap |
| FileSystem.FileSys.BMapIndirect | p2/xv6/kernel/fs.c:336-343 | the case of bmap with an indirect block |
| FileSystem.FileSys.BMapFresh | p2/xv6/kernel/fs.c:334-343 | a fresh indirect block reads as zero pointers, so the word is allocated too: two blocks |
| FileSystem.SetBitFacts | p2/xv6/kernel/fs.c:66-67 | setting a bit keeps the shape of the disk and all addresses |
| FileSystem.AllocKeepsBlocks | p2/xv6/kernel/fs.c:319-347 | an allocated block is zero, so what bmap adds reads as zero bytes |
| FileSystem.DataWrite | p2/xv6/kernel/fs.c:439-442 | a write to the block of one slot changes that block of that file only, and no address |
| FileSystem.FileSys.WritePiece | p2/xv6/kernel/fs.c:439-443 | one round of writei: the piece is in place, the map has no hole, and blocks are taken exactly as the length demands |
| FileSystem.FileSys.CopyIn | p2/xv6/kernel/fs.c:438-444 | the loop of writei |
| FileSystem.FileSys.WriteI | p2/xv6/kernel/fs.c:420-451 | -1 and no change past the end or on 32-bit overflow; otherwise, clamped at MAXFILE blocks, the file is its bytes overwritten and extended at off and the rest of its inode is as it was, all others are unchanged, the accounting stays exact and the blocks before the bitmap stay; it runs out exactly when the blocks needed exceed the free ones |
| FileSystem.OverwriteAt | p2/xv6/kernel/fs.c:420-451 | what overwriting a byte sequence at an offset means, byte by byte |
| FileSystem.WritingDone | p2/xv6/kernel/fs.c:438-450 | after the loop and the new size, only the file written differs, and by the overwrite |
| FileSystem.FileSys.TruncDirect | p2/xv6/kernel/fs.c:359-364 | the direct blocks are freed, everybody else keeps theirs |
| FileSystem.FileSys.TruncAddr | p2/xv6/kernel/fs.c:359-361 | one direct block is given back |
| FileSystem.FileSys.TruncWords | p2/xv6/kernel/fs.c:367-373 | the blocks of the indirect block are freed |
| FileSystem.FileSys.TruncIndirect | p2/xv6/kernel/fs.c:366-376 | those and the indirect block itself are freed |
| FileSystem.FileSys.ITrunc | p2/xv6/kernel/fs.c:352-380 | exactly the blocks the inode held are free again and zero, BlocksFor(size) of them; the rest of the inode and every other file stay |
| FileSystem.TruncatingDone | p2/xv6/kernel/fs.c:352-380 | the blocks still held are those held before by other inodes |
| FileSystem.FileSys.CopyOut | p2/xv6/kernel/fs.c:411-416 | the loop of readi |
| FileSystem.FileSys.ReadI | p2/xv6/kernel/fs.c:393-418 | returns the slice of the byte sequence, cut at the end of the file, and changes nothing; -1 as in the source |
| FileSystem.FileSys.Perform | p2/xv6/kernel/fs.c:352-451 | one operation does to the byte sequences what it does to plain sequences, and keeps every inode's kind, device and link count; it succeeds exactly when the blocks those plain sequences need afterwards fit in the data area |
| FileSystem.FileSys.Run | p2/xv6/kernel/fs.c:352-451 | any run of writei, readi and itrunc has the results and leaves the files that plain byte sequences give, and succeeds exactly when after every operation the plain sequences fit in the data area; every inode keeps its kind, device and link count, and the blocks before the bitmap stay |
| FileSystem.AllHeld | p2/xv6/kernel/fs.c:319-380 | on a disk with exact accounting and files without holes, the blocks in use are the sum over the files of what their lengths need |
| FileSystem.TruncateFrees | p2/xv6/kernel/fs.c:352-380 | truncating gives back the blocks of that file's length |
| Xor.OneByteDetected | p5/xv6/kernel/fs.c:488-495 | changing one byte changes the exclusive or of a block |
| Checked.CheckedFile.BMap | p5/xv6/kernel/fs.c:319-355 | the masked pointer; a fresh block is zero and so is its checksum byte |
| Checked.CheckedFile.BMapDirect | p5/xv6/kernel/fs.c:325-332 | the direct case |
| Checked.CheckedFile.BMapIndirect | p5/xv6/kernel/fs.c:333-352 | the indirect case |
| Checked.CheckedFile.Entry | p5/xv6/kernel/fs.c:341-345 | a word of the indirect block, allocated when zero |
| Checked.CheckedFile.Checksum | p5/xv6/kernel/fs.c:537-538 | the loop computes the exclusive or of the block |
| Checked.CheckedFile.Store | p5/xv6/kernel/fs.c:537-557 | data and checksum of one block change together: every pointer's top byte is the exclusive or of its block again |
| Checked.CheckedFile.WritePiece | p5/xv6/kernel/fs.c:528-557 | one round of writei |
| Checked.CheckedFile.WriteI | p5/xv6/kernel/fs.c:505-565 | the file is its bytes overwritten at off, every top byte agrees with its block; exactly the blocks the longer file needs are taken, and it fails exactly when there are fewer; -1 changes nothing |
| Checked.CheckedFile.Expected | p5/xv6/kernel/fs.c:474-486 | the checksum byte kept for a block, direct or indirect |
| Checked.CheckedFile.ReadPiece | p5/xv6/kernel/fs.c:466-497 | fails exactly on a block whose top byte disagrees |
| Checked.CheckedFile.ReadI | p5/xv6/kernel/fs.c:441-500 | -1 past the end, or exactly when a block in the range disagrees with its checksum; otherwise the slice of the bytes |
| Checked.CheckedFile.ReadValid | p5/xv6/kernel/fs.c:441-500 | reading what writei wrote never fails |
| Checked.CheckedFile.ReadCorrupted | p5/xv6/kernel/fs.c:441-500 | with one byte of one block changed, a read fails exactly when it touches that block; any other read is right |
| Checked.CorruptionNoticed | p5/xv6/kernel/fs.c:488-495 | after a one-byte change exactly the changed block disagrees |
| Checked.CheckedFile.Stati | p5/xv6/kernel/fs.c:400-437 | the checksum reported is the exclusive or of all bytes of the file |
| Checked.TopsAreFileSum | p5/xv6/kernel/fs.c:412-434 | the exclusive or of all top bytes, direct and indirect, is that of the file's bytes |
| Image.WrittenInode | p5/linux/mkfs.c:256-281 | reading an inode gives what was last written to it, and writing one leaves the others |
| Image.NodesWritten | p5/linux/mkfs.c:256-281 | writing an inode changes one entry of the inode table |
| Fscheck.SameBit | p5/linux/fscheck.c:77-81 | the test of a bit in 32-bit words agrees with the byte-wise bit of balloc |
| Fscheck.CheckAddress | p5/linux/fscheck.c:69-93 | one address passes exactly when it is zero or in the data area, marked, and new; every failure names the fault there is |
| Fscheck.CheckDirect | p5/linux/fscheck.c:68-94 | the direct and indirect-pointer addresses of an inode |
| Fscheck.CheckIndirect | p5/linux/fscheck.c:96-125 | the words of its indirect block, which the passed pointer makes safe to read |
| Fscheck.CheckInode | p5/linux/fscheck.c:58-126 | one inode |
| Fscheck.CheckMarks | p5/linux/fscheck.c:273-285 | the last phase passes exactly when every marked data block is used |
| Fscheck.CheckBlocks | p5/linux/fscheck.c:29-126 | accepts exactly the images whose in-use inodes hold addresses in the data area, marked, each once, with every marked data block used; a refusal names a fault the image has |
| Mkfs.Maker.constructor | p5/linux/mkfs.c:67-95 | a fresh image has an empty inode table and exact counters |
| Mkfs.Maker.IAlloc | p5/linux/mkfs.c:296-308 | one more empty file, of that kind and with one link |
| Mkfs.Maker.Take | p5/linux/mkfs.c:346-347 | freeblock and usedblocks move together |
| Mkfs.Maker.MapDirect | p5/linux/mkfs.c:345-354 | a direct or indirect pointer that is 0 gets the next block; fails exactly when there is none below size |
| Mkfs.Maker.MapWord | p5/linux/mkfs.c:357-362 | so does a word of the indirect block, under the same condition |
| Mkfs.Maker.MapBlock | p5/linux/mkfs.c:344-364 | the block of a file position; fails exactly when the pointer and word missing do not fit below size |
| Mkfs.Maker.AppendRound | p5/linux/mkfs.c:341-372 | one round of iappend; fails exactly when what it needs does not fit |
| Mkfs.Maker.AppendLoop | p5/linux/mkfs.c:341-372 | the loop of iappend; fails exactly when the whole range does not fit |
| Mkfs.CostStep | p5/linux/mkfs.c:341-372 | the blocks a range needs are those of its rounds, one after the other |
| Mkfs.EdgeStep | p5/linux/mkfs.c:341-372 | a file stays without holes and without blocks past its end, so what the next round needs follows from its length |
| Mkfs.Maker.IAppend | p5/linux/mkfs.c:328-375 | appends exactly the bytes given to that file and no other; usedblocks == freeblock; for p nonempty it succeeds exactly when the longer file has at most MAXFILE blocks and the blocks its longer layout uses fit below size |
| Mkfs.Maker.Round | p5/linux/mkfs.c:188-193 | rounding a directory's size up appends zero bytes |
| Mkfs.Maker.BAlloc | p5/linux/mkfs.c:310-324 | afterwards the kernel's exact block accounting holds of the image; refused exactly from 4096 blocks on |
| Mkfs.Maker.Run | p5/linux/mkfs.c:296-375 | any sequence of ialloc, iappend and rounding leaves the files of plain appends, and succeeds exactly when the layout computed from the operations alone fits |
| Mkfs.KindsAllocated | p5/linux/mkfs.c:296-308 | the kinds in a layout are those of the ialloc calls in order |
| Mkfs.HeadsDone | p5/linux/mkfs.c:296-308 | an image with that layout has inodes of these kinds, each with one link, and no others |
| Mkfs.Build | p5/linux/mkfs.c:67-95 | a finished image holds those files, its i-th inode has the kind of the i-th ialloc and one link, and all other inodes are unused; the superblock is the one given, the accounting is exactly the kernel's, and fscheck's block phases pass; it is finished exactly when nblocks fits the size, every layout on the way fits and the bitmap block suffices, a condition on the arguments alone |
| Mkfs.AccountedIsSound | p5/linux/fscheck.c:29-126 | every image with the kernel's accounting passes fscheck's block phases |
| Mkfs.SoundIsAccounted | p5/linux/fscheck.c:58-126 | conversely, an image that passes has the kernel's exact accounting, given the three things the block phases do not look at: unused inodes hold nothing, the blocks before the data are marked, and free blocks are zero |
| Mkfs.StartsAgree | p5/linux/fscheck.c:32-39 | fscheck and mkfs agree on the first data block exactly when nblocks and size need equally many bitmap blocks |
| BufferCache.Cache.BInit | p2/xv6/kernel/bio.c:39-56 | the ring holds every buffer once, the last one first |
| BufferCache.Cache.FindCached | p2/xv6/kernel/bio.c:69-71 | the buffer of the sector when there is one |
| BufferCache.Cache.FindIdle | p2/xv6/kernel/bio.c:82-84 | the idle buffer released longest ago |
| BufferCache.Cache.Get | p2/xv6/kernel/bio.c:61-93 | bget: the cached buffer, or sleep while it is busy, or the idle buffer released longest ago; panic exactly when all are busy; the state afterwards is given whole, with the sector's value returned at once on a hit |
| BufferCache.Cache.Take | p2/xv6/kernel/bio.c:72-75 | a hit returns the sector of the flat array |
| BufferCache.Cache.Recycle | p2/xv6/kernel/bio.c:85-89 | no sector comes to be cached twice |
| BufferCache.Cache.Write | p2/xv6/kernel/bio.c:107-115 | bwrite makes the buffer's bytes the sector's in the flat array |
| BufferCache.Cache.MoveToFront | p2/xv6/kernel/bio.c:126-131 | the ring stays a permutation of all buffers, the one released in front |
| BufferCache.Cache.Release | p2/xv6/kernel/bio.c:117-137 | brelse: the whole state afterwards, the buffer in front of the ring and its sleepers awake; every invariant is kept |
| BufferCache.RingWithout | p2/xv6/kernel/bio.c:126-127 | taking a node out of a doubly linked ring |
| BufferCache.RingInFront | p2/xv6/kernel/bio.c:128-131 | putting a node first |
| BufferCache.Released | p2/xv6/kernel/bio.c:83-84 | after brelse the ring still goes from the latest released to the earliest |
| BufferCache.Cache.Append | p2/xv6/kernel/ide.c:137-141 | the request goes to the end of the queue |
| BufferCache.Cache.Start | p2/xv6/kernel/ide.c:123-151 | iderw up to where it sleeps; an idle device is started |
| BufferCache.Cache.Pop | p2/xv6/kernel/ide.c:96-110 | the head of the queue is finished and leaves it |
| BufferCache.Cache.Interrupt | p2/xv6/kernel/ide.c:89-118 | ideintr: the data arrives, the sleepers wake, the next request starts |
| BufferCache.Cache.Transfer | p2/xv6/kernel/ide.c:68-87 | the device does what it was told to |
| BufferCache.Cache.Resume | p2/xv6/kernel/ide.c:147-154 | a read from disk returns the sector of the flat array |
| BufferCache.Cache.NobodyStuck | p2/xv6/kernel/ide.c:123-154 | who sleeps for a buffer sleeps for a busy one of its sector, who sleeps for the disk is in the queue, and a queue that is not empty has the device at work on its head |
| BufferCache.Run | p2/xv6/kernel/bio.c:39-137 | for every list of steps, in any interleaving, the states form a run in which each follows from the one before by that step or is the same when the step is not possible, and every one is sound: a flat array of sectors explains all reads and writes; CacheLaws says what a run means to each process |
| BufferCache.StateSafe | p2/xv6/kernel/bio.c:39-137 | in a sound state no sector is cached twice, idle buffers agree with the flat array, and each read returned what was last written to its sector |
| CacheLaws.CallsReturn | p2/xv6/kernel/bio.c:61-115 | for each process the calls of bread and bwrite are its returns, in order and each with its own sector, and the one call that is open; sleeping in bget or iderw loses none |
| CacheLaws.ReturnHolds | p2/xv6/kernel/bio.c:95-105 | a process comes to run again only with the sector it asked for, in a valid buffer that is busy for it and holds the bytes returned |
| CacheLaws.Ownership | p2/xv6/kernel/bio.c:73-137 | a buffer is busy for a process from when it gets it until it releases it: what its calls have got and not released is what it owns |
| CacheLaws.OnlyOwnerChanges | p2/xv6/kernel/bio.c:107-137 | nobody but its owner changes or takes a buffer that has been returned |
| CacheLaws.InOrder | p2/xv6/kernel/ide.c:89-151 | the disk finishes requests in the order of the iderw calls, and those that remain are the queue |
| CacheLaws.Stamped | p2/xv6/kernel/bio.c:126-131 | the age of a buffer is the place of its last brelse among all |
| CacheLaws.LeastRecentlyUsed | p2/xv6/kernel/bio.c:82-92 | a buffer gets another sector only when no buffer has that sector, and it is then an idle one that nobody has used for longer |
| CacheLaws.NoDeadlock | p2/xv6/kernel/bio.c:61-115 | a process inside bread or bwrite can go on, or the disk can, or it waits for a busy buffer of its sector |
| Namespace.NameCmpIsEquality | p2/xv6/kernel/fs.c:455-459 | comparing 14 bytes up to a NUL is equality of the names cut there |
| Namespace.NamesAgree | p2/xv6/kernel/fs.c:455-459 | namecmp finds the stored name of a field exactly for the fields stored so |
| Namespace.NamesDiffer | p2/xv6/kernel/fs.c:455-459 | two stored names are the same exactly when namecmp says so |
| Namespace.FileTree.IGet | p2/xv6/kernel/fs.c:189-222 | one more reference |
| Namespace.FileTree.IPut | p2/xv6/kernel/fs.c:280-300 | the inode is freed exactly when this was the last reference and no link is left |
| Namespace.FileTree.Drop | p2/xv6/kernel/fs.c:280-300 | afterwards the inode is free exactly when its links and references are both gone |
| Namespace.FileTree.DirLookup | p2/xv6/kernel/fs.c:464-493 | the first entry in use whose 14 bytes namecmp finds equal, none exactly when there is none |
| Namespace.FileTree.Scan | p2/xv6/kernel/fs.c:475-490 | its loop, comparing with namecmp |
| Namespace.FileTree.DirLink | p2/xv6/kernel/fs.c:496-523 | -1 exactly for a name present; otherwise the entry is in the first free slot or at the end; panics exactly for a new name in a directory whose slots up to the largest file size are all used |
| Namespace.FileTree.EmptySlot | p2/xv6/kernel/fs.c:508-515 | the first free slot; it lies past the largest file exactly in a full directory |
| Namespace.FileTree.IsDirEmpty | p2/xv6/kernel/sysfile.c:149-162 | no entry in use beyond the first two |
| Namespace.FileTree.IAlloc | p2/xv6/kernel/fs.c:145-168 | a free inode other than 0, none exactly when none is free |
| Namespace.FileTree.Existing | p2/xv6/kernel/sysfile.c:224-231 | the name exists |
| Namespace.FileTree.NewFile | p2/xv6/kernel/sysfile.c:233-254 | a new file or device in the first free slot; panics exactly when no inode is free or the directory is full |
| Namespace.FileTree.NewDir | p2/xv6/kernel/sysfile.c:233-254 | a new directory with its two entries, counted in the parent; panics exactly when no inode is free or the parent is full |
| Namespace.FileTree.MakeDir | p2/xv6/kernel/sysfile.c:233-248 | the new inode with its two entries and the parent's link |
| Namespace.FileTree.Dots | p2/xv6/kernel/sysfile.c:242-248 | the two entries |
| Namespace.FileTree.Create | p2/xv6/kernel/sysfile.c:213-255 | as a finite map per directory: an existing file is returned, any other existing name refused, a new name is added and every other name leads where it did; panics exactly for a new name with no inode free or the directory full; only the result is referenced |
| Namespace.FileTree.CreateNew | p2/xv6/kernel/sysfile.c:233-255 | the part for a new name |
| Namespace.FileTree.Link | p2/xv6/kernel/sysfile.c:109-146 | succeeds exactly for a non-directory and a new name; otherwise the undo leaves names and counts as they were; panics exactly when that new name meets a full directory |
| Namespace.FileTree.Insert | p2/xv6/kernel/sysfile.c:131-135 | the entry is added to a directory, or the name was there, or the directory is full |
| Namespace.FileTree.Erase | p2/xv6/kernel/sysfile.c:198-209 | the entry is cleared, the counts follow, and the inode goes when nothing is left that leads to it |
| Namespace.FileTree.UnlinkFound | p2/xv6/kernel/sysfile.c:188-211 | refused exactly for a directory with entries |
| Namespace.FileTree.Unlink | p2/xv6/kernel/sysfile.c:164-211 | succeeds exactly for a present name other than the dots that is no filled directory; that name is gone from the map and nothing else, and the inode is freed exactly when links and references are gone |
| Namespace.FileLinked | p2/xv6/kernel/sysfile.c:250-251 | one more entry for a file keeps every count equal to the number of entries |
| Namespace.DirCreated | p2/xv6/kernel/sysfile.c:233-251 | a new directory keeps them so, its parent counted in its ".." |
| Namespace.EntryCreated | p2/xv6/kernel/sysfile.c:213-255 | the new entry is one new binding in one directory, and a new directory binds only the two dots |
| Namespace.EmptyDir | p2/xv6/kernel/sysfile.c:192-209 | an empty directory has one name and names only its parent |
| Namespace.FileUnlinked | p2/xv6/kernel/sysfile.c:198-208 | removing a name of a file keeps every count right |
| Namespace.DirUnlinked | p2/xv6/kernel/sysfile.c:198-208 | removing an empty directory keeps them right |
| Namespace.Freed | p2/xv6/kernel/fs.c:285-296 | freeing an inode without links keeps them right |
| Namespace.FindAdded | p2/xv6/kernel/fs.c:503-520 | a new entry is one new binding of the map |
| Namespace.FindRemoved | p2/xv6/kernel/sysfile.c:198-200 | a cleared entry is one binding less |
| Namespace.Run | p2/xv6/kernel/sysfile.c:109-255 | for every list of calls the states form a run in which each follows from the one before by that call, and every one is sound; the run stops exactly at a call that panics, for a new name with no inode free or a full directory |
| Namespace.StateSafe | p2/xv6/kernel/sysfile.c:109-255 | in a sound state nlink is the number of entries other than "." that name the inode in linked directories, an inode is in use exactly while named or referenced, and the names in a directory differ under namecmp |
| Vm.VirtualMemory.constructor | p2/xv6/kernel/kalloc.c:22-32 | kinit: every frame above the kernel is free, the others are the kernel's |
| Vm.VirtualMemory.KAlloc | p2/xv6/kernel/kalloc.c:56-70 | the first frame of the list, 0 exactly when it is empty |
| Vm.VirtualMemory.KFree | p2/xv6/kernel/kalloc.c:34-54 | the frame is the first of the list, filled with junk |
| Vm.VirtualMemory.WalkPgDir | p2/xv6/kernel/vm.c:52-72 | the table of the address; a missing one is created from one frame; 0 exactly when there is none to have |
| Vm.VirtualMemory.NewTable | p2/xv6/kernel/vm.c:65-69 | a zeroed table changes no mapping |
| Vm.VirtualMemory.MapPage | p2/xv6/kernel/vm.c:86-91 | one page |
| Vm.VirtualMemory.MapPages | p2/xv6/kernel/vm.c:74-98 | exactly the pages of the range are mapped; a failure leaves no free frame and all entries outside the range as they were; it cannot fail for one page whose table exists |
| Vm.VirtualMemory.MapLoop | p2/xv6/kernel/vm.c:80-96 | its loop |
| Vm.VirtualMemory.MapKernel | p2/xv6/kernel/vm.c:143-146 | the four kernel ranges take twelve tables and leave user space empty; they fail exactly with fewer free frames, and then none is left |
| Vm.VirtualMemory.MapFour | p2/xv6/kernel/vm.c:143-146 | the loop over the four ranges |
| Vm.FourRanges | p2/xv6/kernel/vm.c:122-131 | together they map what a process needs of the kernel |
| Vm.Protection | p2/xv6/kernel/mmu.h:129-131 | the access bits, as the processor reads them in both levels: a process reaches exactly its own user pages, each in a frame of its own, and may write them; the kernel's pages are the identity, closed to users, and writeable except its text |
| Vm.VirtualMemory.SetupKvm | p2/xv6/kernel/vm.c:133-149 | with thirteen free frames, a directory from thirteen frames that were free; otherwise 0, and then every frame that was free is lost; everybody else's mappings as before |
| Vm.LeakedAll | p2/xv6/kernel/vm.c:140-146 | a directory that takes the last frames and is dropped leaves them reachable from nowhere |
| Vm.VirtualMemory.FreeUserPage | p2/xv6/kernel/vm.c:268-275 | one page is unmapped and its frame free |
| Vm.VirtualMemory.DeallocUvm | p2/xv6/kernel/vm.c:257-278 | exactly the user pages from newsz to oldsz are gone and their frames free |
| Vm.VirtualMemory.GiveUserPage | p2/xv6/kernel/vm.c:241-248 | a page gets a free frame; mappages cannot fail here |
| Vm.VirtualMemory.MapHeld | p2/xv6/kernel/vm.c:248 | because user space has its table since setupkvm |
| Vm.VirtualMemory.AllocUvm | p2/xv6/kernel/vm.c:228-251 | the new pages are zero and in frames that were free; when there are too few frames, exactly what was taken is given back |
| Vm.VirtualMemory.FreeTables | p2/xv6/kernel/vm.c:290-293 | the tables are freed |
| Vm.VirtualMemory.FreeVm | p2/xv6/kernel/vm.c:282-295 | exactly the frames of that directory are free again, and no other mapping changes |
| Vm.VirtualMemory.CopyPage | p2/xv6/kernel/vm.c:314-320 | one page of the copy |
| Vm.VirtualMemory.CopyPages | p2/xv6/kernel/vm.c:309-320 | the loop: it copies all pages, or stops with no frame left |
| Vm.VirtualMemory.CopyUvm | p2/xv6/kernel/vm.c:299-326 | equal bytes on frames that were free; succeeds exactly with thirteen and one for each page; with thirteen but fewer, every owner is as before; with fewer than thirteen the free ones are lost, as in setupkvm; no mapping of another directory changes |
| Vm.VirtualMemory.ReadPage | p2/xv6/kernel/vm.c:310-317 | the parent's page |
| Vm.Taken | p2/xv6/kernel/kalloc.c:64-69 | a frame leaves the free list: every frame is still in one place |
| Vm.Given | p2/xv6/kernel/kalloc.c:50-52 | a frame comes back: the same |
| Vm.Mapped | p2/xv6/kernel/vm.c:91 | a held frame becomes one user page of one directory |
| Vm.Unmapped | p2/xv6/kernel/vm.c:269-274 | a user page becomes a held frame |
| Vm.TableAdded | p2/xv6/kernel/vm.c:62-69 | a held zero frame becomes a table |
| Vm.DirAdded | p2/xv6/kernel/vm.c:140-142 | a held zero frame becomes a directory |
| Vm.DirRemoved | p2/xv6/kernel/vm.c:282-295 | a directory without user pages: its frames are its tables and itself |
| Vm.GivenBack | p2/xv6/kernel/vm.c:242-245 | taking some pages and giving back the range restores owners and mappings |
| Vm.CopyDone | p2/xv6/kernel/vm.c:309-321 | the pages of the copy equal the parent's |
| Vm.Undone | p2/xv6/kernel/vm.c:323-325 | freeing a fresh copy leaves every owner as before it |
| Shell.Parser.GetToken | p2/xv6/user/sh.c:264-307 | the token at the next non-space, its span, and where the next begins |
| Shell.Parser.Peek | p2/xv6/user/sh.c:309-319 | whether the next character is one of these; no token is lost |
| Shell.Parser.Redirections | p2/xv6/user/sh.c:373-396 | the redirections in order, as Redirs finds them |
| Shell.Parser.Arguments | p2/xv6/user/sh.c:428-444 | the loop over words and redirections; the words found are those of Args, whose meaning ShellGrammar gives |
| Shell.Parser.ParseExec | p2/xv6/user/sh.c:414-445 | refines ExecAt, whose meaning ShellGrammar gives, on every string, and it ends |
| Shell.Parser.ParseBlock | p2/xv6/user/sh.c:398-412 | refines BlockAt on every string, and it ends |
| Shell.Parser.ParsePipe | p2/xv6/user/sh.c:360-371 | refines PipeAt on every string, and it ends |
| Shell.Parser.ParseLine | p2/xv6/user/sh.c:343-358 | refines LineAt on every string, and it ends |
| Shell.Parser.ParseCmd | p2/xv6/user/sh.c:326-341 | refines WholeLine, with nothing left over; ShellGrammar.Parses says which command that is |
| Shell.LineGood | p2/xv6/user/sh.c:343-412 | every word the parser returns is a non-empty run of word characters with a delimiter or an end of the line on either side |
| Shell.WordsApart | p2/xv6/user/sh.c:343-412 | two such words are the same or do not overlap |
| Shell.ExecGood | p2/xv6/user/sh.c:414-445 | the same for one command |
| Shell.NulTerminate | p2/xv6/user/sh.c:447-492 | a NUL goes to the end of every word and nowhere else |
| Shell.WordsGood | p2/xv6/user/sh.c:447-492 | no word end lies inside a word |
| Shell.ParseAndTerminate | p2/xv6/user/sh.c:326-341 | afterwards every word is a NUL-terminated string of its own characters, and no two words overlap |
| ShellGrammar.TokenText | p2/xv6/user/sh.c:264-307 | a token is the end, one of the signs, ">>", or a longest run of word characters; what is skipped before it is white space |
| ShellGrammar.Peeked | p2/xv6/user/sh.c:309-319 | peek looks at the first character of the next token |
| ShellGrammar.ExecSound | p2/xv6/user/sh.c:398-445 | what parseexec and parseblock accept is a simple command, words and redirections in any order, or a line in parentheses with redirections after it |
| ShellGrammar.ExecComplete | p2/xv6/user/sh.c:398-445 | and every such sequence of tokens is accepted, with its words in order and its redirections around them |
| ShellGrammar.PipeSound | p2/xv6/user/sh.c:360-371 | what parsepipe accepts is commands joined by "|" |
| ShellGrammar.PipeComplete | p2/xv6/user/sh.c:360-371 | and all of these are accepted |
| ShellGrammar.LineSound | p2/xv6/user/sh.c:343-358 | what parseline accepts is pipes followed by "&"s and joined by ";" |
| ShellGrammar.LineComplete | p2/xv6/user/sh.c:343-358 | and all of these are accepted |
| ShellGrammar.Parses | p2/xv6/user/sh.c:326-445 | the parser accepts a line exactly when its tokens are a sentence of the grammar, and the command is the meaning of that sentence |
| ShellGrammar.OneMeaning | p2/xv6/user/sh.c:326-445 | no sentence has two meanings |
| Shell.LineRead | p2/xv6/user/sh.c:343-445 | a printed command is read back from any place of a line where it stands |
| Shell.RoundTrip | p2/xv6/user/sh.c:326-445 | parsing the parenthesised printing of a command tree gives the tree |
| Server.Pool.WorkerCheck | p4/linux/server.c:35-39 | a worker waits exactly when there is nothing, and otherwise has the oldest descriptor |
| Server.Pool.WorkerAdvance | p4/linux/server.c:40 | the index moves on |
| Server.Pool.WorkerCount | p4/linux/server.c:41 | the descriptor is taken, once |
| Server.Pool.WorkerSignal | p4/linux/server.c:43-44 | a waiting producer is woken |
| Server.Pool.ProducerCheck | p4/linux/server.c:84-87 | the producer waits exactly when the buffer is full |
| Server.Pool.ProducerStore | p4/linux/server.c:88 | the slot written holds nothing that is pending |
| Server.Pool.ProducerCount | p4/linux/server.c:90 | the descriptor is pending, last in order |
| Server.Pool.ProducerSignal | p4/linux/server.c:91-92 | at least one waiting worker is woken, if there is one |
| Server.NobodyIsLost | p4/linux/server.c:30-51 | with the mutex free: a waiting worker means count is at most the number of woken ones, a waiting producer means a full buffer, and never do all wait |
| Server.Run | p4/linux/server.c:77-95 | for every number of threads and slots and every list of steps, spurious wakeups included, the states form a run in which each is the step applied to the one before, and every one is sound |
| Server.StateSafe | p4/linux/server.c:30-95 | in a sound state descriptors have been taken in the order accepted, each once, at most a buffer and one late; with the mutex free nobody is lost |
| ServerLaws.NothingInvented | p4/linux/server.c:77-95 | what Accept has returned, in order, is what workers have taken, what is in the buffer and what the producer has in hand |
| ServerLaws.TakenByWorkers | p4/linux/server.c:35-49 | only workers take descriptors |
| ServerLaws.HandledInOrder | p4/linux/server.c:35-49 | each worker handles exactly the descriptors it has taken, in order, each once, but for the one in hand |
| ServerLaws.NoDeadlock | p4/linux/server.c:30-95 | when no thread can go on without a new connection, everything accepted has been taken and every worker waits |
| Pipe.Channel.StoreLoop | p2/xv6/kernel/pipe.c:82-92 | stores from the buffer in order until it is full or done |
| Pipe.Channel.WriterRuns | p2/xv6/kernel/pipe.c:77-92 | pipewrite until it sleeps, fails or is done |
| Pipe.Channel.WriterWake | p2/xv6/kernel/pipe.c:88-93 | wakes the readers |
| Pipe.Channel.WriterDrop | p2/xv6/kernel/pipe.c:89 | sleep takes ptable.lock before it releases the pipe's |
| Pipe.Channel.WriterFall | p2/xv6/kernel/pipe.c:89 | and sleeps |
| Pipe.Channel.TakeLoop | p2/xv6/kernel/pipe.c:110-114 | takes bytes in order until there are enough or none is left |
| Pipe.Channel.ReaderRuns | p2/xv6/kernel/pipe.c:98-114 | sleeps exactly when the pipe is empty and can still be written; otherwise hands out the next bytes |
| Pipe.Channel.ReaderWake | p2/xv6/kernel/pipe.c:115 | wakes the writers |
| Pipe.Channel.CloseWriter | p2/xv6/kernel/pipe.c:57-64 | closing the writing end wakes the readers |
| Pipe.Channel.CloseReader | p2/xv6/kernel/pipe.c:65-68 | closing the reading end wakes the writers |
| Pipe.FullTest | p2/xv6/kernel/pipe.c:83 | the 32-bit comparisons are right at every wrap-around |
| Pipe.Difference | p2/xv6/kernel/pipe.c:83-91 | nwrite - nread modulo 2^32 is the number of bytes in the pipe |
| Pipe.Run | p2/xv6/kernel/pipe.c:57-118 | for any readers and writers and every list of steps the states form a run in which each follows from the one before, and every one is sound |
| Pipe.StateSafe | p2/xv6/kernel/pipe.c:57-118 | in a sound state the bytes read are a prefix of those stored, at most 512 are in between through wrap-around, and with the lock free no reader sleeps with data there or the end closed, and no writer with space |
| PipeLaws.ReadIsHandedOut | p2/xv6/kernel/pipe.c:98-118 | the bytes read are those that finished calls of piperead have returned, in order, and those that a call is about to return |
| PipeLaws.ReadReturns | p2/xv6/kernel/pipe.c:98-118 | a call of piperead returns the bytes read for it, no more than it asked for |
| PipeLaws.ShortRead | p2/xv6/kernel/pipe.c:103-114 | it gets fewer only when the pipe is then empty, and none only when the writing end is closed, too |
| PipeLaws.WriteReturns | p2/xv6/kernel/pipe.c:77-95 | a call of pipewrite returns its length when all its bytes are stored, in order, and -1 exactly when some are left out, the reading end being closed |
| PipeLaws.OnlyWrites | p2/xv6/kernel/pipe.c:77-95 | nothing else is ever in the pipe |
| PipeLaws.EndsOpen | p2/xv6/kernel/pipe.c:57-75 | an end is open until it is closed |
| PipeLaws.NoDeadlock | p2/xv6/kernel/pipe.c:77-118 | when no call can go on, readers in a call sleep at an empty pipe that may still be written, and writers at a full one that may still be read |
| Proc.Table.FindUnused | p2/xv6/kernel/proc.c:76-80 | the first unused slot |
| Proc.Table.ForkBegin | p2/xv6/kernel/proc.c:170-172 | a new pid in an unused slot, -1 exactly when the table is full |
| Proc.Table.ForkFail | p2/xv6/kernel/proc.c:174-180 | the slot is unused again |
| Proc.Table.ForkLink | p2/xv6/kernel/proc.c:182 | the parent is set while the child cannot run |
| Proc.Table.ForkEnd | p2/xv6/kernel/proc.c:193-207 | the child may run, and its pid is returned |
| Proc.Table.Wakeup1 | p2/xv6/kernel/proc.c:509-517 | exactly those asleep on the channel may run |
| Proc.Table.PassOn | p2/xv6/kernel/proc.c:238-245 | the children are init's, who is woken for a zombie |
| Proc.Table.ExitNow | p2/xv6/kernel/proc.c:213-251 | exit: the parent is woken, the children passed on, and the process is a zombie |
| Proc.Table.Scan | p2/xv6/kernel/proc.c:255-294 | wait returns the pid of a zombie child of the caller, which no wait has returned, or finds no child, or sleeps with children of which none is a zombie |
| Proc.Table.SwitchTo | p2/xv6/kernel/proc.c:492-505 | a process woken in wait scans again at once |
| Proc.Table.KillPid | p2/xv6/kernel/proc.c:531-549 | the first slot with that pid |
| Proc.ExitedKeeps | p2/xv6/kernel/proc.c:233-249 | exit leaves every live process a live parent, and nobody asleep in wait with a zombie child |
| Proc.OrphanedWaits | p2/xv6/kernel/proc.c:238-245 | passing the children on does not leave init asleep with a zombie |
| Proc.ReapedKeeps | p2/xv6/kernel/proc.c:265-283 | reaping keeps both |
| Proc.StartedKeeps | p2/xv6/kernel/proc.c:82-85 | taking a slot keeps both |
| Proc.ForkMoves | p2/xv6/kernel/proc.c:174-194 | the later steps of fork keep both |
| Proc.ReapedOrZombie | p2/xv6/kernel/proc.c:255-294 | a pid that exited has been returned by wait or is a zombie's, never both |
| Proc.Run | p2/xv6/kernel/proc.c:164-294 | for every list of steps of fork, exit, wait, sleep, wakeup and kill the states form a run in which each follows from the one before, and every one is sound; ProcLaws says what a run means to each process |
| Proc.StateSafe | p2/xv6/kernel/proc.c:164-294 | in a sound state each live process but init has a parent that is neither unused nor a zombie, nobody sleeps in wait with a zombie child, and each exited pid has been returned or is a zombie's, never both |
| Proc.ReturnedOnce | p2/xv6/kernel/proc.c:255-294 | what wait has returned stays as it is, and a pid it newly returns was a zombie child of the caller and had not been returned |
| ProcLaws.CallsReturn | p2/xv6/kernel/proc.c:159-294 | each call of fork and wait returns once, in order, but for the one that is open |
| ProcLaws.ForkReturns | p2/xv6/kernel/proc.c:159-208 | fork returns the pid of a new runnable child of the caller, or -1 with a full table or its slot given back |
| ProcLaws.ForksDiffer | p2/xv6/kernel/proc.c:76-85 | no two calls of fork return the same pid |
| ProcLaws.AllPast | p2/xv6/kernel/proc.c:76-85 | a pid that has been returned belongs to one slot at most, and never comes back once gone |
| ProcLaws.WaitReturns | p2/xv6/kernel/proc.c:255-294 | wait returns the pid of a zombie child, whose slot is free again, or -1 exactly without children or killed, and never then with a zombie child |
| ProcLaws.WaitSleeps | p2/xv6/kernel/proc.c:286-292 | a call of wait that does not return sleeps with children none of which has exited |
| ProcLaws.WakeupWakes | p2/xv6/kernel/proc.c:507-526 | everybody who slept on the channel may run, whatever the channel, and nobody else is touched |
| ProcLaws.SleepLasts | p2/xv6/kernel/proc.c:470-505 | who sleeps on a channel sleeps until wakeup on it or a kill |
| ProcLaws.SleepSleeps | p2/xv6/kernel/proc.c:470-505 | sleep puts its caller on that channel |
| ProcLaws.KillMarks | p2/xv6/kernel/proc.c:531-549 | kill returns 0 exactly when some slot has that pid; the first such is marked and not asleep, all others stay |
| ProcLaws.KilledLasts | p2/xv6/kernel/proc.c:531-549 | the mark stays until wait frees the slot |
| ProcLaws.ExitLeaves | p2/xv6/kernel/proc.c:213-251 | exit leaves a zombie, its children with init, and its parent not asleep in wait |
| ProcLaws.ZombieStays | p2/xv6/kernel/proc.c:255-294 | only wait takes a zombie away |
| Sched.Scheduler.ForkNow | p2/xv6/kernel/proc.c:194-205 | a new process starts at level 0 with nothing used |
| Sched.Scheduler.DispatchHigh | p2/xv6/kernel/proc.c:332-390 | at levels 0 to 2 a used up slice means one level down without a run, otherwise a run is charged |
| Sched.Scheduler.DispatchLow | p2/xv6/kernel/proc.c:392-420 | at level 3 the pid goes to the end of the queue, and the process runs exactly when its pid is then at the front; the whole state afterwards |
| Sched.Scheduler.BumpAll | p2/xv6/kernel/proc.c:624-661 | a runnable process that did not run since the last time is one level up with a new slice there |
| Sched.ChargedOk | p2/xv6/kernel/proc.c:342-349 | a run at a level keeps slice and ticks in step |
| Sched.BumpedOk | p2/xv6/kernel/proc.c:637-655 | a promotion takes away a slice that was used up |
| Sched.TicksBounded | p2/xv6/kernel/proc.c:332-390 | ticks[q] <= budget(q) * (1 + promotions into q), with equality above the process's own level |
| Sched.RisesWhenStarved | p2/xv6/kernel/proc.c:624-661 | a runnable process that is never run rises one level with each bump after the first |
| Sched.Run | p2/xv6/kernel/proc.c:332-420 | for every list of steps the states form a run in which each follows from the one before, and every one is sound |
| Sched.StateBounds | p2/xv6/kernel/proc.c:332-420 | in a sound state priorities are at most 3, slices at most 5, 5 and 10, levels above the process's own are used up exactly, and ticks are bounded |
| SchedLaws.TicksCount | p2/xv6/kernel/proc.c:332-420 | ticks[q] is the number of turns at level q since the fork, modulo 2^32 |
| SchedLaws.SliceCount | p2/xv6/kernel/proc.c:332-390 | slice[q] is the number of turns at level q since the fork or the last promotion into q |
| SchedLaws.SliceBound | p2/xv6/kernel/proc.c:332-390 | no process gets more turns at levels 0 to 2 than 5, 5 and 10 before it goes down |
| SchedLaws.Demotion | p2/xv6/kernel/proc.c:332-390 | a process whose turn comes gets the processor exactly while it has had fewer turns than its slice, and otherwise goes one level down |
| SchedLaws.TurnsAreGiven | p2/xv6/kernel/proc.c:332-420 | turns go only to the process whose turn has come, at its level |
| SchedLaws.StarvedMark | p2/xv6/kernel/proc.c:624-661 | starved says whether a process has had no turn since it was forked or last looked at |
| SchedLaws.Promotion | p2/xv6/kernel/proc.c:624-661 | bump_priority moves exactly the runnable processes without a turn one level up |
| SchedLaws.LevelsStay | p2/xv6/kernel/proc.c:194-205 | nothing else changes a level; fork starts at level 0 |
| SchedLaws.LastLevel | p2/xv6/kernel/proc.c:392-420 | at level 3 the turn goes to the front of the queue after the caller's pid has been put at its end |
| SchedLaws.RoundsOfTwenty | p2/xv6/kernel/proc.c:392-420 | every twentieth turn at level 3 takes the front away |
| SchedLaws.QueueKept | p2/xv6/kernel/proc.c:637-655 | the queue changes at level 3 only, and a promotion from level 3 empties it |
| Grep.MatchHere | p2/xv6/user/grep.c:83-95 | true exactly when a prefix of the text is in the pattern's language, all of it when the pattern ends in $ |
| Grep.MatchStar | p2/xv6/user/grep.c:97-105 | true exactly when some number of fitting characters can be followed by the rest |
| Grep.Match | p2/xv6/user/grep.c:71-81 | true exactly when that holds of some suffix of the text, of the text itself after ^ |
| Grep.HereOne | p2/xv6/user/grep.c:92-94 | one character of the pattern takes one fitting character |
| Grep.HereMany | p2/xv6/user/grep.c:88-89 | c* takes any number |
| Grep.HereDollar | p2/xv6/user/grep.c:90-91 | a final $ takes the end |

## Left out

- Umalloc.Allocator.Malloc: requests of 2^31 bytes or more, where the unit arithmetic of `sbrk` would wrap, are excluded; `sbrk` is taken to return memory above what it returned before, aligned to a header.
- Umalloc.Allocator.Free: only addresses returned by `malloc` and not freed since are legal arguments.
- FileSystem.FileSys.WriteI: device inodes go to their driver instead; running out of blocks, a panic in the source, ends the run (`ok` is false).
- FileSystem.FileSys.ITrunc: locks on inodes and the buffers held meanwhile are not modelled; the disk is the flat array of sectors, and inodes are records rather than bytes of an inode block.
- Checked.CheckedFile.BMap: the block allocator is the set of free zero blocks that `FileSystem` proves it to be, with block numbers below 2^24; only the in-core inode of one file is modelled.
- Truncating a checksummed file, whose mask test in `itrunc` is inverted, and the persistence of checksums after an overwrite that does not grow the file, since `iupdate` is then not called.
- Mkfs.Build: a run of the image builder that would write past the end of the image, fill more than one bitmap block or exceed MAXFILE blocks stops with `ok` false; walking the host's directories and the names in entries are not modelled, nor the byte order conversions, which are the identity on the hosts meant.
- Fscheck.CheckBlocks: only the block-address and bitmap phases, for a superblock with size = b_start + nblocks; the directory phases are out (their skip condition can never hold), and the use array starts zeroed although one clearing loop has the wrong bound.
- BufferCache.Run: no device error, one disk queue; clients write a changed buffer before they release it, and a process uses one buffer operation at a time; when every buffer is busy the source panics and the model's step changes nothing.
- Namespace.Run: calls run one at a time, none inside a directory already removed; walking a path to its parent directory is a parameter; a call that panics ends the run; link counts stay below 2^15 - 1 for `sys_link`.
- Namespace.FileTree.IGet: references are counted per inode; that the table of in-core inodes can be full is not modelled, nor are device numbers other than one.
- Vm.VirtualMemory.AllocUvm: `growproc`, `inituvm`, `loaduvm` and switching page tables are out; sizes handed in lie below USERTOP.
- Shell.ParseAndTerminate: pointers into the line are spans of it and the nodes of a command are values, so updating `argv` of a command already wrapped in redirections is wrapping the finished one; running commands and the panics' messages are out.
- Server.Run: handling a request and closing its descriptor are one step; arguments are positive, as `getargs` checks.
- Pipe.Run: no process is killed, an end is closed only while no call on it is in progress, and freeing the pipe with its last end is out.
- Proc.Table.ExitNow: the panic of init is excluded, and closing files happens before; pids are unbounded, so the wrap of `nextpid` after 2^31 processes is not modelled.
- Proc.Table.ForkBegin: a fork is the writes other processes can see (slot and pid, give up, parent, state); memory, files and registers are out.
- Sched.Scheduler.ForkNow: a fork is one step, although the source makes the child runnable before it resets its counters; the ticks of a run are charged when the process comes back, in the same step.
- Sched.Scheduler.DispatchLow: the level-3 queue is modelled as coded, but no fairness is claimed: every scan adds to it. Strict priority between levels is not claimed either, and the source does not have it.
- Grep.Match: the loop that reads lines is out; its buffer is not NUL-terminated after a read. C strings are sequences without their NUL.
- Port and device I/O, interrupt controllers, boot code, context switches and trap frames: hardware effects.
- The shared memory of `p3` and the threads of `p4`, whose code keeps no clean invariant, and all other copies of the kernel and tools, which duplicate what is modelled.
- Formatted output, the web requests and socket wrappers, the statistics programs, `mysh.c`, `varsort.c` and the user test programs: library calls, input and output.
