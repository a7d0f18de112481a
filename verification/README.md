# A verified model of a block file system, its network server and a phone directory device

The repository holds three small systems. This project models their cores in Dafny and proves what
they keep, over every input, every run and every interleaving.

**The block file system** (`hw1-fs` and `hw2-netfs`, the same code twice). A container is an array
of bytes: a superblock, a bitmap of used blocks, and blocks. A file is a chain of blocks linked by
the word each block starts with; its first block also holds size, flags and the number of its last
block. Directories are files of fixed-size items. The model is a class over the mutable byte array,
`FsDescriptors`, with the struct sizes as parameters (36, 29 and 21 bytes of superblock, first
header and offset of `last_inode` in the packed build, 40, 32 and 24 in the other).

- `Bytes`, `Layout`, `Disk`, `Image`: words, patches, geometry, the view of the flat array as
  superblock, set of used blocks and map of blocks, and the class.
- `Chains`, `Census`: when bitmap, chains, sizes and tails agree (`Wf`), the files a disk then holds,
  what happens to them when one of them changes, and how the used blocks add up.
- `Allocator`, `Resize`, `Truncate`, `FileIo`, `Format`: the operations on blocks and files. `Retrace`:
  a file emptied and filled again.
- `Namespace`, `Directories`, `Purge`, `Subtrees`: directories as lists of items, paths as walks,
  deletion, and the trees below a directory.
- `Paths`: the two-pass path splitter. `Drivers`, `Runs`: the command line and whole runs of it.
- `Removal`: the remove command. `Witness`: one small file system on which it goes wrong.

**The network server** (`hw2-netfs`). `Wire` is the request format with its readers and writers over
short reads and writes. `Replies` is the reply grammar as the client reads it. `Handlers` is what each
request answers and does. `Server` is the step system of client threads, the mutex, the error
interceptor and its flag; the handler is any relation of small steps on a file system state, which may
crash. `FileServer` puts the two together.

`Formats` says of disk and wire byte by byte what lies where.

**The phone directory device** (`hw3-kernel`). `PhoneDirectory` is the list, `CharDevice` the open
file with its two buffers and its pending list, and the client's three commands.

## How the code and the obvious claims part

The model follows the code. Where a claim one would expect does not hold, the exact condition is
proved instead.

- A chain need not end in 0: growing does not clear the word of a reused block, and shrinking does
  not clear the cut link (`hw2-netfs/src/manage.c:186-202`). The invariant therefore counts blocks.
  `Truncate.ResizedEndsInZero` says exactly when a chain ends in 0 itself, and `Witness.CutB` reaches one
  that does not. From a container of zeroes, without frees, all do (`Runs.HealthyBlocks`). Shrinking walks
  on to a 0 and frees what it passes: that is harmless if and only if none of it is used
  (`Truncate.CutWf`), and `Witness.StealBlock` reaches a state where another file loses a block.
- A growing truncate stores the size before it has the blocks (line 181). So growing leaves a consistent
  file system if and only if the size fits: otherwise the file is broken for good, and no other is
  (`Truncate.TruncateFile`, `Truncate.DamagedForGood`; `Witness.FillA` reaches such a state).
- The test `~cur_byte == 0` (line 48) is never true, because the byte is widened first; the scan visits
  full bytes bit by bit. With a full table the scan finds a padding bit if there is one, so that want of
  space is reported as an internal error by the marking (`Allocator.AllocateBlock`).
- `remove_from_directory` returns an index, and its callers purge the file of that number
  (`hw2-netfs/src/backend_operations_impl.c:81-82`). So, where the index is the number of a file, rm
  frees what it removed if and only if the index is the item's inode (`Removal.RmFreesRemoved`). The first
  item of a directory makes it crash, an index beyond the last block makes it die, and the index of the
  root's number purges all but what was removed (`Removal.RmIn`, `Removal.RmOfRoot`; `Witness.RemoveA` and
  `Witness.RemoveB` are such runs).
- The server means to catch SIGSEGV, but only asks for the current action (`hw2-netfs/src/net_backend.c:48`).
  So removing the first item of a directory ends the process (`FileServer.StepRemove`). Without removals
  and want of blocks it never ends (`FileServer.ServerSound`).
- Creation on the server takes any flags. It keeps files and directories apart if and only if not both
  flags are set (`Runs.CreatedPlain`); into a file with both, one write puts an item that names no file
  (`Runs.TwoFaced`; `Witness.BothFlags` is such a run).
- The reader of a request ignores whether the arguments could be read
  (`hw2-netfs/include/rfsnet/operation_defines.h.in:13`). Its contract says which operation it yields on a
  complete message and that it reports success on a cut one.
- The length test of the kernel module has its sides exchanged (`hw3-kernel/kernel/kmodule.c:51`): two
  messages in one buffer are never processed (`CharDevice.UserHandle.HandleProcessInput`).

## Model

| member | source | states |
|---|---|---|
| `Layout.GetBlocksRequired` | hw2-netfs/src/manage.c:166-172 | The division formula gives the least positive number of blocks that holds `size` payload bytes. |
| `Layout.BlocksRequiredMonotone` | hw2-netfs/src/manage.c:166-172 | A larger size never requires fewer blocks. |
| `Layout.Position` | hw2-netfs/src/manage.c:219-244 | The block number and offset of a file byte: past the header, inside the block, and the bytes in front of it are exactly the file bytes before it. |
| `Layout.PositionInjective` | hw2-netfs/src/manage.c:219-244 | Different bytes of a file have different positions, all in the blocks that its size requires. |
| `Layout.PositionOnto` | hw2-netfs/src/manage.c:219-244 | Every payload byte of every block of a chain is the position of some byte; no payload is wasted. |
| `Layout.PagesForIsCeil` | hw2-netfs/src/manage.c:67 | The rounding-up division counts the fewest pages that hold the metadata. |
| `Layout.MetaExact` | hw2-netfs/src/manage.c:65-67 | The metadata pages are the fewest blocks that hold superblock and lookup table, and the container always has that many. |
| `Disk.ViewWrite` | hw2-netfs/src/manage.c:302 | Overwriting bytes inside one data block of the flat container changes that block and neither superblock, table nor any other block. |
| `Disk.ViewMark` | hw2-netfs/src/manage.c:32-42 | Changing one bit of one table byte in the flat container changes the used state of that block and nothing else. |
| `Bytes.MarkedByte` | hw2-netfs/src/manage.c:38-41 | Setting or clearing bit k of a byte decides bit k and keeps the other seven. |
| `Image.FsDescriptors.TableByteBit` | hw2-netfs/src/manage.c:47-51 | Bit k of table byte i is set exactly when block 8i + k is used. |
| `Image.FsDescriptors.StoreTableBit` | hw2-netfs/src/manage.c:32-42 | The byte update in the container is the set update on the used blocks. |
| `Image.FsDescriptors.Store` | hw2-netfs/src/manage.c:302 | memcpy into a block: the view of the container changes by exactly that write. |
| `Image.FsDescriptors.Load` | hw2-netfs/src/manage.c:244 | memcpy out of a block: the buffer gets exactly the bytes of that block. |
| `Chains.ChainUnique` | hw2-netfs/src/manage.c:225-236 | A disk leaves no choice: two counted chains of the same file are equal. |
| `Chains.SpaceSlice` | hw2-netfs/src/manage.c:241-244 | Reading inside the i-th block of a chain reads that stretch of the chain's bytes. |
| `Chains.SpaceWrite` | hw2-netfs/src/manage.c:299-302 | Writing inside the i-th block of a chain patches exactly that stretch of the chain's bytes. |
| `Chains.OtherFile` | hw2-netfs/src/manage.c:174-204 | A change outside a file's blocks leaves its chain, size, flags, tail and content as they were. |
| `Chains.ReplaceWf` | hw2-netfs/src/manage.c:174-204 | Giving one file a new chain of own or free blocks keeps the consistency of bitmap, chains, sizes and tails, and every other file. |
| `Chains.DropWf` | hw2-netfs/src/manage.c:144-151 | Clearing the bits of one file's chain keeps the rest consistent and removes exactly that file. |
| `Allocator.MarkBlockInLookupTable` | hw2-netfs/src/manage.c:32-42 | Marks exactly that block, or dies exactly for a number beyond the last block. |
| `Allocator.GetNextFreeBlockIndex` | hw2-netfs/src/manage.c:44-57 | The scan returns the first clear bit, padding bits included; it dies exactly when no bit is clear. |
| `Allocator.AllocateBlock` | hw2-netfs/src/manage.c:117-119 | Scan and mark return the least unused block and add exactly it; they die exactly when all `blocks_count` blocks are used, in the scan or, when there are padding bits, in the marking. |
| `Allocator.FreshSnoc` | hw2-netfs/src/manage.c:186-192 | k allocations in a row hand out, one after the other, the least block that was free at the start and is not yet taken. |
| `Truncate.PurgeBlocks` | hw2-netfs/src/manage.c:144-151 | On a chain whose links lead to a 0, through whatever blocks, the walk ends, clears exactly the bits of the blocks it passes and dies nowhere. |
| `Chains.LeadsUnique` | hw2-netfs/src/manage.c:144-151 | There is one way to follow the links of a chain, so the walk to a 0 is harmless exactly when that way passes no used block. |
| `Truncate.Extend` | hw2-netfs/src/manage.c:183-192 | The extending loop appends the least free blocks, linked in order; it dies exactly when they do not suffice. |
| `Truncate.ExtendFile` | hw2-netfs/src/manage.c:183-193 | Growing keeps the old counted chain as a prefix, appends distinct blocks that were free, and sets `last_inode` to the new tail. |
| `Truncate.CutFile` | hw2-netfs/src/manage.c:194-203 | Shrinking a chain whose links lead to a 0 clears exactly the bits of what is on that way beyond the new count, whosever blocks these are, and sets `last_inode` to the tail that stays. |
| `Truncate.CutWf` | hw2-netfs/src/manage.c:194-203 | The file system of the same files is consistent afterwards if and only if that way passed no used block; and its chains are then the expected ones. |
| `Truncate.CutVictim` | hw2-netfs/src/manage.c:194-203 | Otherwise some other file has lost a block: it is in its chain, and its bit is clear. |
| `Truncate.TruncateFile` | hw2-netfs/src/manage.c:174-204 | Both directions: the new chain, the bytes up to the smaller size kept, all other files untouched. It fails exactly when the free blocks do not suffice, and then the file is broken and every other one is intact. The file system is consistent afterwards if and only if the size fits and a shrinking walk to the 0 passes no used block. |
| `Truncate.ShortChain` | hw2-netfs/src/manage.c:181-193 | When the extending loop stops short, no chain at all has the stored size and ends at `last_inode`. |
| `Truncate.DamagedForGood` | hw2-netfs/src/manage.c:181-193 | After that, no assignment of chains that has the broken file makes the disk consistent, and none that gives it up and knows no new file. |
| `Truncate.ResizedContent` | hw2-netfs/src/manage.c:174-204 | The resized file has the new size and the old flags, and agrees with the old content up to the smaller size. |
| `Truncate.ResizedEndsInZero` | hw2-netfs/src/manage.c:186-202 | The exact condition under which a resized chain ends in 0: no blocks were dropped, and its tail held 0 before. A cut link or a stale word in a reused block breaks it. |
| `Truncate.ResizedEnds` | hw2-netfs/src/manage.c:194-203 | Shrinking never takes away the end that a later shrinking or purging walks to. |
| `Truncate.MovedOthers` | hw2-netfs/src/manage.c:174-204 | Resizing or writing one file does not change whether another file's chain ends in 0. |
| `Retrace.FreshRefill` | hw2-netfs/src/manage.c:186-192 | On a bitmap without gaps, blocks just freed are handed out again in their old order. |
| `Retrace.RetraceStep` | hw2-netfs/src/manage.c:386-389 | Growing a file that was emptied takes back its own blocks, one after the other, and makes all links of its old chain hold. |
| `Retrace.RetraceEnds` | hw2-netfs/src/manage.c:386-389 | While it is refilled, the file's chain always leads to a 0, and ends in it exactly when it has all its blocks again. |
| `FileIo.Seek` | hw2-netfs/src/manage.c:219-236 | Skipping whole blocks arrives at the block and the offset that the position of the byte says; at a block's end it stays there. |
| `FileIo.CopyOut` | hw2-netfs/src/manage.c:239-255 | The copy loop copies the asked stretch of the chain, starting perhaps with an empty piece, and never follows a link beyond the counted chain. |
| `FileIo.CopyContent` | hw2-netfs/src/manage.c:237-257 | With the bounds checked and clipped, exactly the asked slice of the file's content comes to the front of the buffer. |
| `FileIo.ReadFile` | hw2-netfs/src/manage.c:206-258 | Reading is slicing: it reports the length of `content[offset..min(offset + length, size)]`, puts exactly that at the front of the buffer, and dies exactly for an offset beyond the size. |
| `FileIo.SliceBytes` | hw2-netfs/src/manage.c:206-258 | Byte i of what is read at an offset is byte offset + i of the file, up to the end of the file or of the request. |
| `FileIo.CopyIn` | hw2-netfs/src/manage.c:298-313 | The copy loop writes the data at that stretch of the chain's bytes and changes no header. |
| `FileIo.WriteFileUnchecked` | hw2-netfs/src/manage.c:265-314 | Writing is splicing: `content[..offset] + data + content[min(size, offset + length)..]`, all other files and the consistency kept, with the exact condition and error of every failure. A bad offset changes nothing; want of blocks breaks this file and no other. |
| `FileIo.ReadBack` | hw2-netfs/src/manage.c:206-314 | What is written at an offset is what is read there, every other byte is as before, and the size grows to the end of the write at most. |
| `FileIo.WriteFile` | hw2-netfs/src/manage.c:316-321 | The same, failures included, and it dies, changing nothing, for anything without the file flag. |
| `FileIo.AppendFileUnchecked` | hw2-netfs/src/manage.c:323-326 | Appending puts the data behind the content; it dies exactly for want of blocks, and then this file is broken and no other. |
| `FileIo.InitNewFile` | hw2-netfs/src/manage.c:117-128 | A new file is empty, with the given flags, on the least free block, which ends its chain with 0; no other block changes. It fails exactly when there is no block and then changes nothing. |
| `FileIo.ResizedPristine` | hw2-netfs/src/manage.c:186-193 | As long as free blocks hold continuation 0, growing leaves every chain null-terminated and every free block 0. |
| `Census.UsedCount` | hw2-netfs/src/manage.c:166-193 | The number of used blocks is the metadata pages plus the sum of the blocks required by all sizes. |
| `Census.UsedBySizes` | hw2-netfs/src/manage.c:166-193 | The number of used blocks is a function of the sizes of the files. |
| `Format.MarkMetadata` | hw2-netfs/src/manage.c:76-81 | The cleared and marked table says that exactly the metadata pages are used; marking them never dies. |
| `Format.PlatformTells` | hw2-netfs/src/manage.c:59-64 | The five remembered numbers are those of this platform exactly if the bytes are equal. |
| `Format.PrepareDescriptors` | hw2-netfs/src/manage.c:59-84 | Dies exactly when one of the five remembered struct sizes is not that of this platform, and otherwise only cleans the table when asked to. |
| `Format.InitGeometryFits` | hw2-netfs/src/manage.c:87-91 | The rounded number of pages holds the size and the superblock, and one page less would not. |
| `Format.InitGeometryOk` | hw2-netfs/src/manage.c:87-91 | On a fitting platform the geometry of init_fs is proper if and only if the container stays below 2^63 bytes. |
| `Format.InitSized` | hw2-netfs/src/manage.c:86-105 | init_fs from the size asked for: a container of that geometry becomes a fresh file system with an empty root, or there is no block for it. |
| `Format.StoreSuperblock` | hw2-netfs/src/manage.c:94-97 | The superblock's bytes and no others change. |
| `Format.InitFs` | hw2-netfs/src/manage.c:86-105 | A fresh file system has one empty directory right behind the metadata pages; it dies exactly when there is no block for it; on zeroes all chains end in 0 and free blocks hold 0. |
| `Format.OpenFs` | hw2-netfs/src/manage.c:107-110 | Opening a container again, from what its superblock says, finds the same files and changes no byte. |
| `Namespace.ItemRoundTrip` | hw2-netfs/include/rfscore/fs.h:21-24 | A directory item read back from its bytes is the same item. |
| `Namespace.ItemsOfBytes` | hw2-netfs/src/manage.c:345-348 | Reading the bytes of a list of items as items gives the list back. |
| `Namespace.BytesOfItems` | hw2-netfs/src/manage.c:338-348 | Every directory content of a whole number of items is the bytes of its items. |
| `Namespace.FindItemFirst` | hw2-netfs/src/manage.c:362-368 | The item found has the name, and no item before it has it. |
| `Namespace.CStringIs` | hw2-netfs/src/manage.c:364 | A name is what stands in its field before the first NUL. |
| `Namespace.WalkOne` | hw2-netfs/src/manage.c:370-380 | No component leads nowhere else; one component leads to the inode of the first item of that name, or to nothing exactly when no item has it. |
| `Namespace.WalkSplit` | hw2-netfs/src/manage.c:370-380 | Resolving a path is resolving its front and then the rest from there, errors included. |
| `Namespace.PaddedNameBack` | hw1-fs/main.c:75-77 | The name field filled in the loop reads back as the name. |
| `Namespace.CreatedItems` | hw1-fs/main.c:74-78 | A creation adds one item at the end of the parent's list. |
| `Namespace.CreateKeepsPaths` | hw1-fs/main.c:63-81 | Every path that resolved before a creation resolves to the same inode after it. |
| `Namespace.CreateThenLocate` | hw1-fs/main.c:63-81 | After a creation the new path resolves to the new inode if and only if the parent had no item of that name. |
| `Namespace.CreateThenWalk` | hw1-fs/main.c:63-81 | Said of walks: the new path resolves to the new inode if and only if nothing was found at it before. |
| `Namespace.CreateClosed` | hw1-fs/main.c:63-81 | After a creation every item still names an existing file. |
| `Directories.ReadDirectory` | hw2-netfs/src/manage.c:333-349 | Returns the items of the content, or dies for a file that is no directory or has half an item. |
| `Directories.FindDirectoryItem` | hw2-netfs/src/manage.c:362-368 | Returns the index of the first item of that name and dies exactly when there is none. |
| `Directories.LocatePath` | hw2-netfs/src/manage.c:370-380 | The loop over the components is the walk through the namespace, with the same errors. |
| `Directories.AppendDirectory` | hw2-netfs/src/manage.c:355-360 | Adds the item's bytes at the end; dies exactly for no directory, changing nothing, or for want of blocks, breaking this directory and no other file. |
| `Directories.PutBackFits` | hw2-netfs/src/manage.c:386-389 | After emptying a directory, a size that needs no more blocks than it had always fits. |
| `Directories.PutBack` | hw2-netfs/src/manage.c:387-389 | The loop puts back every item but the k-th, in order, and never runs out of space. |
| `Directories.RemoveAtIs` | hw2-netfs/src/manage.c:387-389 | Without the k-th item, the items before it stay at their places and those behind it move up by one. |
| `Directories.RemoveFromDirectory` | hw2-netfs/src/manage.c:382-393 | Removal is list deletion: the first match goes, the order stays, no other file changes its content, its chain or what that ends in, the index comes back, and it dies only for no directory, half an item or no such name, changing nothing. Where nothing was freed before, the directory's chain still leads to a 0, and ends in it exactly when it kept all its blocks. |
| `Purge.PurgeFile` | hw2-netfs/src/manage.c:153-164 | On a tree of files whose links lead to a 0 the recursion ends, clears exactly the bits of all blocks of all files of the subtree, and changes no other bit and no block. |
| `Purge.PurgeItems` | hw2-netfs/src/manage.c:155-161 | The loop over the items purges exactly the subtrees of the items. |
| `Subtrees.WithinTree` | hw2-netfs/src/manage.c:153-164 | Whatever occurs inside a tree of the namespace is a tree with a part of its files. |
| `Subtrees.WalkInTree` | hw2-netfs/src/manage.c:370-380 | Every path that resolves leads to a file of the tree. |
| `Subtrees.PruneTree` | hw2-netfs/src/manage.c:382-393 | Deleting an item takes exactly the subtree of its inode out of the tree; both what is left and what was cut off are trees. |
| `Removal.PurgeNumber` | hw2-netfs/src/manage.c:130-164 | purge_file with any number: 0 is followed into nothing, a number beyond the last block dies, and a file's own number purges its subtree. |
| `Removal.RmIn` | hw1-fs/main.c:170-174 | rm inside a directory: the item goes; then the process crashes exactly for index 0, dies exactly for an index beyond the last block, and otherwise purges the file of that number with all below it. |
| `Removal.AnswerableIs` | hw1-fs/main.c:173-174 | The indices that this leaves open are exactly the numbers of later metadata pages, of unused blocks and of blocks inside a chain. |
| `Removal.Rm` | hw2-netfs/src/backend_operations_impl.c:73-83 | rm by path, for every path, directory and name: an error of path, walk, directory or name changes nothing; otherwise the item goes from its directory, and then the process crashes or dies with nothing else changed, or exactly the files and blocks of the tree at the item's index go. |
| `Removal.RmNames` | hw2-netfs/src/backend_operations_impl.c:76-78 | The item that goes is the one that the path names. |
| `Removal.RmForgets` | hw2-netfs/src/backend_operations_impl.c:81 | In a tree the path then names nothing, if and only if the directory has no further item of that name. |
| `Subtrees.WalkToHere` | hw2-netfs/src/manage.c:370-380 | In a tree the way to a file survives whatever happens to that file. |
| `Removal.RmFreesRemoved` | hw2-netfs/src/backend_operations_impl.c:81-82 | When the removed item's index is the number of a file, what rm purges is the subtree of the removed item if and only if the index is the item's inode, which a caller can see before the call. |
| `Removal.RmFreesBlocks` | hw2-netfs/src/backend_operations_impl.c:81-82 | Files are told apart by their blocks: two sets of files occupy the same blocks only if they are the same. |
| `Removal.RmOfRoot` | hw2-netfs/src/backend_operations_impl.c:81-82 | When the index is the number of metadata pages, that is the root: everything is purged except what was removed. |
| `Witness.RemoveB` | hw1-fs/main.c:160-179 | It happens: after init, mkfile /a and mkfile /b on a container with one metadata page, rm /b leaves the file b and nothing else. |
| `Witness.RemoveA` | hw1-fs/main.c:160-179 | On the same container rm /a removes the item and then crashes. |
| `Witness.CutB` | hw2-netfs/src/manage.c:194-202 | A reachable chain that does not end in 0: on the same container, deleting the item b alone leaves the root with a cut link. |
| `Witness.StealBlock` | hw2-netfs/src/manage.c:194-203 | A reachable state where shrinking frees another file's block: a file grown to three blocks and cut to two still points to the third, a new file takes that, and cutting the first again clears its bit. |
| `Witness.FillA` | hw2-netfs/src/manage.c:181-193 | A reachable state of a file broken by want of space: 4000 bytes written where three blocks are left. |
| `Witness.BothFlags` | hw2-netfs/src/backend_operations_impl.c:51-71 | A reachable state of a file created with both flags: one item written into it, and the namespace names a file that is not there. |
| `Drivers.SpliceSplice` | hw1-fs/main.c:52-56 | Two writes one behind the other are one write of both. |
| `Drivers.FlattenConcat` | hw1-fs/main.c:52-56 | The input is its chunks one behind the other. |
| `Drivers.ChunkVerdict` | hw1-fs/main.c:52-56 | Whether the next chunk can be written decides whether all bytes so far, in one write, could. |
| `Drivers.PerformWrite` | hw1-fs/main.c:46-57 | However the input is cut into chunks, the loop has the verdict of one write of all of it and, when it succeeds, its files. When it dies for want of blocks, in any chunk, this file is broken and no other; when it dies for anything else, nothing changed. |
| `Drivers.Cat` | hw1-fs/main.c:128-135 | For every positive buffer size the loop ends and prints exactly the content. |
| `Drivers.ResolveParent` | hw1-fs/main.c:64-72 | Finds the parent and the last component, or dies for a bad path, an unresolved parent or a long name, in this order. |
| `Drivers.AddItem` | hw1-fs/main.c:74-78 | Adds an empty file and its item, or dies exactly for no directory or want of blocks: an unused empty file stays when the parent is no directory, and a broken parent besides when the item does not fit. |
| `Drivers.MakeItem` | hw1-fs/main.c:63-81 | The whole creation by path: its exact verdict, exactly one new empty item when it returns, and what is left when it dies. |
| `Drivers.MadeLocates` | hw1-fs/main.c:63-81 | After it, the path leads to the new inode if and only if it named nothing before. |
| `Runs.InsertTree` | hw1-fs/main.c:63-81 | A creation hangs one leaf below its directory; the namespace stays a tree. |
| `Runs.CreatedPlain` | hw2-netfs/src/backend_operations_impl.c:51-71 | A creation keeps files and directories apart if and only if its flags are not both set. |
| `Runs.TwoFaced` | hw2-netfs/src/backend_operations_impl.c:41-71 | Wherever a file has both flags, one write into it puts an item that names no file. |
| `Runs.WriteReads` | hw1-fs/main.c:128-162 | In a tree, what was written at a path is what a read of that path gives. |
| `Runs.ExecuteMake` | hw1-fs/main.c:95-105 | mkfile and mkdir run out of blocks if and only if the sizes of the files leave too few, and then what is broken is said. Otherwise they keep the file system healthy, whether they succeed or die: they make exactly one new item at the path, or change nothing, or leave one file without an item below a parent that is no directory. |
| `Runs.ExecuteWrite` | hw1-fs/main.c:142-162 | write runs out of blocks if and only if the sizes of the files leave too few, and then only its file is broken. Otherwise it keeps the file system healthy, whether it succeeds or dies: it splices its whole input into the file at the path, or changes nothing. |
| `Runs.Run` | hw1-fs/main.c:40-81 | Any run of creations and writes, with commands that die among them, keeps the file system healthy and takes the files through the exact effects of the commands one by one. It stops at the first command for which the sizes of the files leave too few blocks, and at no other, and then says what is left. |
| `Runs.InitAndRun` | hw2-netfs/src/manage.c:86-128 | The same from init_fs on zeroes: the run starts with an empty root and ends healthy. |
| `Runs.HealthyBlocks` | hw2-netfs/src/manage.c:86-193 | What health means: set bits are exactly metadata pages and chains; chains are disjoint, in range, without repetition, linked, null-terminated and end at `last_inode`; free blocks hold 0; the used blocks add up. |
| `Runs.HealthyPurge` | hw2-netfs/src/manage.c:144-164 | In a healthy file system every tree that occurs in the namespace, at any depth, meets what purge_file needs. |
| `Paths.Measure` | hw2-netfs/src/myutil.c:80-92 | The first pass refuses exactly the paths that do not start with a slash or have two in a row, and otherwise counts components and letters. |
| `Paths.Measured` | hw2-netfs/src/myutil.c:84-95 | The counts of the first pass are what the second pass writes: as many parts as components, and len + k bytes of line. |
| `Paths.FillingBounds` | hw2-netfs/src/myutil.c:100-107 | At every byte of the second pass the next write is inside both buffers. |
| `Paths.Fill` | hw2-netfs/src/myutil.c:96-107 | The second pass lays out exactly the components, each ended by a NUL, and their starts, and stays inside both buffers. |
| `Paths.PartAt` | hw2-netfs/src/myutil.c:99-109 | The C string at the j-th start is the j-th component. |
| `Paths.SplitPath` | hw2-netfs/src/myutil.c:80-111 | Returns exactly the components of the path and dies exactly for an invalid one. |
| `Paths.ParsePrinted` | hw2-netfs/src/myutil.c:80-111 | "/" and any components without slash, joined by slashes, splits into these components; one more slash at the end changes nothing. |
| `Paths.PrintParsed` | hw2-netfs/src/myutil.c:80-111 | Every accepted path is "/" and its components joined, perhaps with one more slash, and its components are not empty and free of slashes. |
| `Wire.Connection.SafeRead` | hw2-netfs/src/serialization.c:4-15 | For any positive short reads exactly the next len bytes are stored, and it fails exactly when the stream ends before. |
| `Wire.Connection.SafeWrite` | hw2-netfs/src/serialization.c:17-28 | For any positive short writes exactly the data goes out. |
| `Wire.Connection.ReadArray` | hw2-netfs/include/serialization.h:17-27 | Reads a count into its struct field and then as many elements, as the format says. |
| `Wire.Connection.WriteArray` | hw2-netfs/include/serialization.h:29-34 | Writes the count and then the elements, if any. |
| `Wire.Connection.ReadArgs` | hw2-netfs/src/serializers.c:22-31 | Reads one operation's struct and arrays: what the format says, or failure exactly when the stream is cut. |
| `Wire.Connection.ReadOperation` | hw2-netfs/src/serializers.c:13-20 | Under any chunking the reader takes the first message of the stream and tells its operation; it reports failure only when no type can be read. |
| `Wire.Connection.WriteOperation` | hw2-netfs/src/serializers.c:13-20 | Under any chunking exactly the bytes of the request go out. |
| `Wire.Connection.WriteAll` | hw2-netfs/src/serializers.c:13-20 | Requests one after the other put their messages one after the other, however short the writes. |
| `Wire.Connection.ReadAll` | hw2-netfs/src/net_backend.c:110-116 | The serving loop reads exactly the operations of the stream, however short the reads. |
| `Wire.Carry` | hw2-netfs/src/serializers.c:13-31 | So a list of requests that one end writes and the other reads, under any chunking on both sides, arrives as that list. |
| `Wire.CountsDoNotMatter` | hw2-netfs/include/serialization.h:18 | Overwriting the struct's own copy of a count with the count sent in front of the array changes nothing in the operation. |
| `Wire.RoundTrip` | hw2-netfs/src/serializers.c:13-31 | Reading what was written gives the same operation, for all six kinds and any pointer values, and takes exactly its bytes. |
| `Wire.StreamRoundTrip` | hw2-netfs/src/serializers.c:13-31 | Messages written one after the other are read as the same list. |
| `Wire.ParsePrefix` | hw2-netfs/src/serializers.c:13-31 | A message that has arrived completely means the same whatever follows it. |
| `Replies.ReplyRoundTrip` | hw2-netfs/src/main_cli.c:43-54 | The client gets back the reply that was sent, error or payload, and has then read exactly its bytes. |
| `Replies.RepliesInOrder` | hw2-netfs/src/main_cli.c:43-109 | Reading a connection's replies against its requests gives the replies in the order of the requests, up to an error. |
| `Drivers.Locate` | hw2-netfs/src/backend_operations_impl.c:22-23 | The inode a path names, or the error of the path or of the walk. |
| `Handlers.FsopRead` | hw2-netfs/src/backend_operations_impl.c:21-39 | The answer is the slice of the named file, or exactly the errors of path, walk and offset. |
| `Handlers.FsopWrite` | hw2-netfs/src/backend_operations_impl.c:41-49 | The named file gets the data spliced in, or exactly the errors of path, walk, flag, offset and space; but for want of blocks a failure changes nothing. |
| `Handlers.FsopCreate` | hw2-netfs/src/backend_operations_impl.c:51-71 | When it answers, exactly one empty item is new at the path, and the path leads to it if and only if it named nothing before. But for want of blocks a failure is that of path, walk or name and changes nothing, or that of a parent that is no directory and leaves one file without an item. |
| `Handlers.FsopStat` | hw2-netfs/src/backend_operations_impl.c:89-110 | The answer has the size and the chain of the named file; it dies if and only if the last block's link leads out of the container, so never on a chain that ends in 0. |
| `Handlers.FsopReadDir` | hw2-netfs/src/backend_operations_impl.c:112-126 | The answer is the list of items of the named directory, or exactly the errors. |
| `Handlers.TraceFileBlocks` | hw2-netfs/src/manage.c:400-411 | The first `count` entries are the file's chain; it dies exactly when the last block's link leads out of the container. |
| `Handlers.ProcessOperation` | hw2-netfs/src/net_backend.c:90-92 | Every request gets a reply of its own kind: the slice, the size and the block numbers, or the items of the named file, a file system changed as asked, or the error that is due, with nothing changed but by a creation below no directory. Requests that only read always leave a consistent file system, and a stat of a file fails nowhere where nothing was freed before. |
| `Handlers.ErrorsTold` | hw2-netfs/src/manage.c:56-367 | The texts of the errors, and that no two errors are told alike. |
| `Server.ExclusiveStep` | hw2-netfs/src/net_backend.c:20-32 | Each step of any thread keeps: the thread inside holds the mutex, no other is inside, and errors are intercepted while a handler runs. |
| `Server.Reachable` | hw2-netfs/src/net_backend.c:94-120 | The whole invariant holds after every interleaving of any number of clients. |
| `Server.MutualExclusion` | hw2-netfs/src/net_backend.c:94-109 | At most one thread is inside an operation, exactly the one that holds the mutex. |
| `Server.SequentialFold` | hw2-netfs/src/net_backend.c:94-109 | The file system is what the handled requests make of it one after the other, each alone, in the order in which the mutex was taken. die_fatal in a handler never ends the process: the process ends only in a handler that follows a bad pointer, which the action queried for SIGSEGV does not catch. |
| `Server.ExitStep` | hw2-netfs/src/net_backend.c:44-49 | Each step of any thread keeps that the process has ended only if the handler inside can follow a bad pointer there. |
| `Server.ReplyStream` | hw2-netfs/src/net_backend.c:110-116 | Whenever a connection has nothing left to send, its client reads exactly the replies of its handled requests, in request order, and an error is the last. A thread ends only after an error or at the end of what its client sent, and then it has answered all of it. |
| `Server.MutexReleased` | hw2-netfs/src/net_backend.c:20-32 | Once a handler has ended, by answering or by die_fatal, each step of its thread either comes nearer to the unlock or is the unlock; after an answer the thread reads on, after an error it has ended. |
| `Server.AnswerOne` | hw2-netfs/src/net_backend.c:94-116 | In every reachable state with the mutex free, a request that has arrived is answered by steps of its thread alone, in whatever steps its handler can take: the reply goes out, the file system is what the handler made of it, and the thread is back at reading the next request, or has ended after an error. |
| `Server.TalksWork` | hw2-netfs/src/backend_operations_impl.c:10-19 | Each handler step is silent, or ends the handler with exactly one reply: a finished handler's starts with the empty error, a dying one's is an error that is not empty. |
| `FileServer.Step` | hw2-netfs/src/net_backend.c:90-92 | What process_operation does to the container, on any request that is no removal, is one step of the server's handlers, and it is no crash. |
| `FileServer.StepRemove` | hw2-netfs/src/backend_operations_impl.c:73-87 | So is what a removal does in a tree: it replies, or crashes exactly when the item is the first of its directory, and it leaves what rm leaves. |
| `FileServer.ServedSound` | hw2-netfs/src/backend_operations_impl.c:21-126 | A request that only reads or finds blocks enough keeps the file system sound: every item names a file, and nothing is both file and directory. |
| `FileServer.ServedTree` | hw2-netfs/src/backend_operations_impl.c:21-126 | It also keeps the namespace a tree on a disk where nothing was ever freed. |
| `FileServer.ServerSound` | hw2-netfs/src/net_backend.c:94-120 | However clients connect and their threads interleave, as long as they send no removal, no creation with both flags and no path without a component to create, and no write or creation is answered by want of space or an internal error, the process does not end, the file system is sound at every moment, and the log of replies accounts for every change of its files and every error. If it was a tree where nothing was freed, it is so at every moment, and every stat of a file is answered. |
| `FileServer.InitAndServe` | hw2-netfs/src/net_backend.c:94-120 | The same composed with init_fs on zeroes and any run of commands before the server starts. |
| `PhoneDirectory.Sealed` | hw3-kernel/kernel/directory.c:22-28 | The kept record ends its four strings at bytes 127, 255, 319 and 383 and keeps every other byte. |
| `PhoneDirectory.Bears` | hw3-kernel/kernel/directory.c:48-64 | strcmp on the surname field: a record bears a surname exactly if it starts with its bytes and a NUL. |
| `PhoneDirectory.SinceAdd` | hw3-kernel/kernel/directory.c:16-32 | A record added is the last match of a surname exactly if it starts with its bytes and a NUL, or fills the field up to its last byte; otherwise the matches stay. |
| `PhoneDirectory.SinceDelete` | hw3-kernel/kernel/directory.c:61-69 | A deletion takes away all matches of its surname and none of another. |
| `PhoneDirectory.Directory.AddRecord` | hw3-kernel/kernel/directory.c:16-32 | The sealed record, byte by byte, is the new head of the list, and the rest of the list is as before. |
| `PhoneDirectory.Directory.Find` | hw3-kernel/kernel/directory.c:38-59 | A record of the list is found exactly if it starts with the bytes of the surname and a NUL; the result is in insertion order. |
| `PhoneDirectory.Directory.Del` | hw3-kernel/kernel/directory.c:61-69 | A record of the list goes exactly if it starts with the bytes of the surname and a NUL; the others keep their order. |
| `PhoneDirectory.LiveMatches` | hw3-kernel/kernel/directory.c:16-69 | After every history the live records of a surname are those added since its last deletion, in insertion order. |
| `PhoneDirectory.Directory.SysFind` | hw3-kernel/kernel/kmodule.c:318-360 | Returns the oldest live record of the surname, 0 when there is none, and EINVAL exactly for a bad length. |
| `CharDevice.UserHandle.ProcessOperation` | hw3-kernel/kernel/kmodule.c:45-81 | For a buffer that does not end inside its first message: a whole message takes its effect on the directory and the pending list; more than one message is left alone. |
| `CharDevice.UserHandle.HandleProcessInput` | hw3-kernel/kernel/kmodule.c:83-108 | For a buffer that does not end inside its first message: the input is processed and emptied if and only if it is one whole message. |
| `CharDevice.UserHandle.HandleProcessOutput` | hw3-kernel/kernel/kmodule.c:110-130 | Records move to the buffer in order while they fit, the stream stays the same, and records stay behind only when the buffer has no room for one. |
| `CharDevice.UserHandle.DevRead` | hw3-kernel/kernel/kmodule.c:157-186 | The bytes read and the bytes left are the bytes there were; nothing is returned to a caller with room only when nothing is left. |
| `CharDevice.UserHandle.DevWrite` | hw3-kernel/kernel/kmodule.c:188-222 | One whole message takes effect at once; what it finds joins the end of the stream, so that bytes returned and bytes left are always all records found, in request order. |
| `CharDevice.ReadQuant` | hw3-kernel/client/lltest.cpp:52-67 | Reads one whole record, or reports the end exactly when nothing is left; half a record never appears. |
| `CharDevice.PerformSearch` | hw3-kernel/client/lltest.cpp:104-114 | A search refuses a surname of 128 bytes or more, and otherwise prints exactly the records of the list that start with its bytes and a NUL, oldest first. |
| `CharDevice.PerformAdd` | hw3-kernel/client/lltest.cpp:91-102 | An addition refuses strings that do not fit, and otherwise the record, field by field at its place, is the last match of its surname, and every other surname keeps its matches. |
| `CharDevice.PerformDelete` | hw3-kernel/client/lltest.cpp:116-120 | A deletion refuses a surname of 128 bytes or more, and otherwise leaves no match of it and all matches of any other; nothing in front of the reader changes. |
| `Formats.EncodeAt` | hw2-netfs/include/rfscore/fs.h:9-39 | Words are little-endian: byte i of a number is its i-th digit to the base 256. |
| `Formats.SuperblockFields` | hw2-netfs/include/rfscore/fs.h:27-39 | Where the seven numbers of the superblock lie. |
| `Formats.BlockFields` | hw2-netfs/include/rfscore/fs.h:9-19 | Where in the container the bit, the link, the size, the flags, the last block and the payload of a block lie. |
| `Formats.ItemFields` | hw2-netfs/include/rfscore/fs.h:21-24 | Where inode and name of a directory item lie, and which bits the two flags are. |
| `Formats.ReadFields` | hw2-netfs/include/rfsnet/net.h:30-34 | Where the fields and arrays of a read request lie. |
| `Formats.WriteFields` | hw2-netfs/include/rfsnet/net.h:36-41 | Where the fields and arrays of a write request lie. |
| `Formats.CreateFields` | hw2-netfs/include/rfsnet/net.h:43-46 | Where the fields and the path of a creation lie. |
| `Formats.PathFields` | hw2-netfs/include/rfsnet/net.h:48-58 | Where the path of a removal, a stat and a listing lies, and the kinds. |
| `Formats.StringFields` | hw2-netfs/src/serializers.c:27 | A string on the wire: length, pointer, length, bytes; the greeting is the empty error. |
| `Formats.InfoFields` | hw2-netfs/include/rfsnet/net.h:68-72 | Where size and block numbers lie in the answer to a stat. |
| `Formats.ListingFields` | hw2-netfs/src/serializers.c:31 | Where the items lie in the answer to a listing. |

## Left out

- Mapping, growing and unmapping the container file, the command line and printing: the model starts from a byte array of the right length.
- Sockets, accepting connections, signals, the system log and `net_frontend.c`: a connection is the bytes it carries.
- `errno`, failing allocations and failing transfers, with `shutdown` after them: allocation and I/O succeed, and `die` is not reached.
- Arithmetic beyond `size_t`: sizes, offsets and counts are unbounded numbers; containers and buffers are smaller than 2^63 bytes.
- The implementation of the mutex and of the kernel's locks: taking and releasing them are single steps, and the kernel module's calls run one after the other.
- `hw4-keystats`, the added system calls and the vendored sources: one counter, a timer, thin wrappers.
- `links_count`: stored as 0 by InitNewFile and read by nothing.
- Truncate.PurgeBlocks: only chains whose links lead to a 0 through data blocks; a link into the metadata pages or round in a circle is not followed in the model.
- Truncate.TruncateFile: shrinking requires the same of the file.
- Directories.RemoveFromDirectory: a directory of more than one block must lead to a 0 over unused blocks; what happens otherwise is said by CutWf.
- Removal.RmIn: on trees where nothing was freed before, and not for the numbers of later metadata pages, unused blocks and blocks inside a chain, whose bytes are then read as a header; see Removal.AnswerableIs. Finding the directory is Directories.LocatePath.
- Directories.LocatePath: every readable directory's items name existing files in proper C strings; other images lead the source outside its buffers.
- Purge.PurgeFile: only trees, because on shared or cyclic items the recursion need not end.
- Drivers.MakeItem: a path with at least one component; for "/" alone the source counts below zero.
- Drivers.PerformWrite: splitting and locating the path in front of the loop is in ExecuteWrite; the lines printed for NUL bytes are left out.
- Runs.Run: it stops at a command that runs out of blocks. rm is no command of these runs, because it does not keep a file system healthy.
- Format.OpenFs: only containers that hold a consistent file system of the same platform.
- Wire.Connection.ReadOperation: for a message cut off, only that it yields no operation is stated; the source goes on with one that is not filled in.
- Wire.Connection.WriteOperation: arrays are there whenever their count is not 0.
- Handlers.FsopCreate: its exact verdict is stated by MakeItem, which it calls; a path with at least one component.
- Handlers.TraceFileBlocks: the source also stores the last block's link one entry behind its array; the model keeps the array's own entries.
- Handlers.ProcessOperation: no removals, which Removal.Rm describes, and paths that end in a NUL; the error text of an internal error is shortened.
- Server.Reachable: a thread that meets a message cut off stops in the model; clients send whole messages.
- Server.SequentialFold: that a handler ends is not claimed here; the file system's own handlers are single steps in FileServer.
- FileServer.FileHandlers: by definition nothing but the form of replies is said about removals, and about requests to a file system that has lacked blocks. StepRemove shows that form of removals in a tree.
- FileServer.ServerSound: nothing is claimed once a removal was served or blocks were lacking.
- Removal.Rm: on trees where nothing was freed before, with a name to remove in the path, and indices as in RmIn.
- CharDevice.UserHandle.DevRead: the input buffer does not end inside a message, and copying to the caller succeeds.
- CharDevice.UserHandle.DevWrite: one whole message into an empty input buffer, as the client writes it; the branch for a full buffer is left out.
- PhoneDirectory.Directory.Find: allocation succeeds, so that no match is skipped.
