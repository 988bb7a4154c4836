# A verified model of SkullOS

SkullOS is a small 32-bit kernel in C. This project models four of its cores
in Dafny, in the form the C code has, and proves what they are for.

**Heap** (`HeapModel`, `HeapRuns`, `Heap`). The allocator lives inside the 64 KB region it
hands out. `Heap.KernelHeap` keeps that region as one array of 4-byte words; a block
header is three of them, and `Kmalloc` and `Kfree` rewrite headers word by word.
`HeapModel` has the same heap as a sequence of blocks. `kfree` merges with the block
behind and once, so free blocks can end up next to each other; `HeapRuns` proves exactly
which runs and which heaps avoid that. The ghost field `seen` holds what a timer interrupt
after every single store would read from the block list.

**File system** (`FsTree`, `FsModel`, `SkullFs`, `PathModel`, `Libc`, `PathWalk`,
`FsCommands`, `FsRuns`, `FsPaths`, `FsEntries`, `FsLeaks`, `FsInodes`, `FsContents`).
`FsTree` is the meaning: a tree of directories and files. `SkullFs.FileSystem` is SkullFS
on top of `Heap.KernelHeap`: linked entries, parent pointers and growable buffers as
records, each in the heap block that `Kmalloc` granted for it. Every operation is proved
against the tree, with the exact condition under which it succeeds, memory included, with
the records and the heap it leaves, and with nothing a path can reach changed when it does
not. `PathWalk` is the walker that overwrites slashes in its copy of the path.
`FsCommands` are the shell commands on top; the effect of each one is a relation between
two states of records, tree and heap. `FsRuns` has whole sessions, from the mount on: the
commands of the shell mixed with reads and writes at any offset; and the life of a file
and of a directory. `FsPaths` says what the commands mean at the paths they are given:
what is made is found there, what is removed is gone there, and `ls` shows what is there.
`FsEntries` counts the entries a directory may have when it is removed. `FsLeaks` proves
which heap blocks a session loses, `FsInodes` that no two nodes get the same inode number
while the counter has not gone round, and `FsContents` that what was written is read back
until something is written over it or the file is removed.

**Console** (`ConsoleModel`, `Tape`, `GuiModel`, `GuiText`, `Console`, `Numbers`). The
screen is one array of 2000 cells with two 40x25 windows. Between any two statements of
the output routines, and between any two cells of a scroll, `Console.Screen.Interrupts`
lets in whatever timer and keyboard interrupts `arrivals` has for that point: any number,
in any order. `arrivals` is arbitrary, so every theorem holds for every interleaving. The
left window is compared with a terminal that never scrolls, and that with a tape that has
no rows either, on which a text stands as it was printed (`Tape`); the right half is the
fold of the interrupts that came, and its texts are read back as the time, the free memory
and the elapsed seconds they show.

**Keyboard and shell** (`Keyboard`, `KeyInput`, `Words`, `Tokenizer`, `LineEditor`,
`Shell`, `FsShell`, `FsTyped`). The interrupt handler fills a ring of 128 codes while the
main loop drains it, and can come between any two steps of the loop, whether that waits
for a key, takes one or prints. The history of the keyboard, the codes that came and the
moments at which one was taken, determines at every moment which codes were taken, which
wait, and which were refused: exactly those that found 127 others waiting. The tokenizer
cuts a line up in place. The line editor is followed from the scancodes to the cells of
the window. `FsShell` runs the submitted lines on the file system, so that a text typed
into a file can be followed from the keys to the screen, and `FsTyped` says of every file
command what the line that is typed for it does.

The `hide` statements in some bodies only keep definitions that a proof does not
need away from the verifier.

## Where the code differs from what it says

* Payloads are not always aligned to 8: the size is rounded to 8, but a header has 12
  bytes (kernel/memory.c:29-30). A grant is aligned to 8 exactly if the first fitting
  block starts 4 behind a multiple of 8 (`HeapRuns.GrantAlignedIff`); the first one after
  `memory_init` never is (`HeapRuns.FirstGrantIsMisaligned`).
* `rm` takes a directory with one or two entries, and what lies below it with it,
  because `.` and `..` are never stored although the test allows for them
  (fs/src/skullfs.c:339). The nodes below it are not freed: a session loses blocks exactly
  if it removes a directory that is not empty (`FsLeaks.SessionLosesIff`), as
  `FsLeaks.RemovedDirectoryLosesItsFile` does right after the mount.
* A path that ends in a slash makes an entry with an empty name, as `mkdir a/` does; no path
  ever leads to it (`FsPaths.NamelessIsLost`).
* `cat` looks its argument up as a name in the root, and so shows a file exactly if its path
  has no slash (`FsPaths.CatShowsIff`); `write` takes any path.
* Creating and removing a directory is not well nested: it frees the struct, the
  entry and the node, in another order than their allocation. The heap is given back, up
  to merging, exactly if the entry was not cut off right behind the struct
  (`FsRuns.DirLifeCoarsensIff`). On the heap a mount leaves, it was
  (`FsRuns.DirLifeAfterMount`).
* The shift bit is cleared when either shift key is released. With left shift, then right
  shift pressed, and right shift released, it is clear although left shift is down
  (`Keyboard.ShiftIsLost`); it tells whether a shift key is down exactly unless one was
  last released over the other (`Keyboard.ShiftTellsIff`).
* Caps lock affects the codes 0x10 to 0x1A only, and thereby `[` but not `a`
  (drivers/keyboard/keyboard.c:134-135). The tables have `-` at 0x4E and `+` at 0x52
  (drivers/keyboard/keyboard.c:23), which are other keys than the key code list says.
* A line of 31 characters reaches the right edge, and from then on the row no longer
  shows the line (`LineEditor.ThirtyOneAreLost`).

## Model

| member | source | states |
|---|---|---|
| `HeapModel.RoundUpIsLeast` | kernel/memory.c:29-30 | the rounded size is the least multiple of 8 that is enough; sizes above 2^32 - 8 wrap around to 0 |
| `HeapModel.TilingBounds` | kernel/memory.c:6-12 | every block of a tiled heap lies inside the region and is word-aligned |
| `HeapModel.TilingSeparates` | kernel/memory.c:37-56 | two blocks of a tiled heap do not overlap, headers included |
| `HeapModel.NextBlock` | kernel/memory.c:14-19 | `next` is the address of the next block, or NULL at the last one |
| `HeapModel.MallocTiles` | kernel/memory.c:28-60 | `kmalloc` keeps the blocks a gap-free tiling of the region |
| `HeapModel.FreeTiles` | kernel/memory.c:63-74 | so does `kfree` of a live pointer |
| `HeapModel.BytesConserved` | kernel/memory.c:77-109 | free bytes, used bytes and 12 bytes a header always add up to the region |
| `HeapModel.MallocIsFirstFit` | kernel/memory.c:36-59 | NULL exactly when no free block fits, otherwise the fitting block of lowest address |
| `HeapModel.MallocLive` | kernel/memory.c:51-52 | a successful `kmalloc` adds one live block that was not live, at least as large as asked for, and leaves every other live block alone |
| `HeapModel.FreeLive` | kernel/memory.c:63-74 | `kfree` of a live pointer takes that block away and leaves every other live block alone |
| `HeapRuns.FreeUndoesMalloc` | kernel/memory.c:28-74 | freeing a block gives back the heap from before its allocation, up to merging of free neighbours, if all in between was undone |
| `HeapRuns.NestedRunCoarsens` | kernel/memory.c:28-74 | every well-nested run, failed requests included, ends in the starting heap up to merging of adjacent free blocks |
| `HeapRuns.NestedRunRestores` | kernel/memory.c:28-74 | from a heap without adjacent free blocks it ends in exactly that heap |
| `HeapRuns.NestedRunFromBoot` | kernel/memory.c:21-74 | from `memory_init` it ends in the one free block of 65524 bytes |
| `HeapRuns.NestedRunsRestoreIff` | kernel/memory.c:28-74 | all well-nested runs give a heap back exactly if and only if it has no two adjacent free blocks |
| `HeapRuns.MergingRun` | kernel/memory.c:36-73 | any two adjacent free blocks are merged for good by some well-nested run, made out of the free list |
| `HeapRuns.MallocKeepsMerged` | kernel/memory.c:28-60 | `kmalloc` never makes two free blocks adjacent |
| `HeapRuns.FreeKeepsMergedIff` | kernel/memory.c:69-73 | `kfree` keeps free blocks apart if and only if the block in front of the freed one is live |
| `HeapRuns.FreeAddrs` | kernel/memory.c:63-74 | `kfree` removes the boundary behind the block exactly if a free block starts there, and no other boundary |
| `HeapRuns.MallocAddrs` | kernel/memory.c:36-53 | `kmalloc` keeps every boundary; the only new one can be the end of the granted block, with a free block behind it |
| `HeapRuns.ForwardFreesCoarsenIff` | kernel/memory.c:28-74 | two blocks freed in the order of their allocation give the heap back, up to merging, if and only if the second was not cut off right behind the first |
| `HeapRuns.ForwardMergeLeavesAdjacentFree` | kernel/memory.c:69-73 | two requests of 8 bytes after `memory_init`, freed in that order, leave adjacent free blocks |
| `HeapRuns.GrantAlignedIff` | kernel/memory.c:28-52 | a grant is a multiple of 8 if and only if the first fitting block starts 4 behind one |
| `HeapRuns.FirstGrantIsMisaligned` | kernel/memory.c:21-52 | the first grant after `memory_init` is 4 behind a multiple of 8, whatever its size |
| `HeapRuns.BumpedGrant` | kernel/memory.c:36-53 | on a heap in use up to its last block, a request that leaves more than a header is cut off the front of that block |
| `HeapRuns.LivePayloadsApart` | kernel/memory.c:28-60 | two live payloads do not overlap, and neither reaches into the header of the other |
| `HeapRuns.EveryRunTiles` | kernel/memory.c:21-74 | after every run of `kmalloc` and `kfree`: tiled, payloads aligned to 4 and apart, every byte accounted for |
| `Heap.TilingLinks` | kernel/memory.c:6-12 | in memory the `next` fields lead through the headers of the tiling in ascending order to NULL |
| `Heap.TilingRead` | kernel/memory.c:77-109 | a walk along the chain in memory finds the free and used totals of the tiling |
| `Heap.HeadersOutsidePayload` | kernel/memory.c:6-12 | writes inside a payload change no header |
| `Heap.SplitIsRead` | kernel/memory.c:40-49 | after each of the five stores of a split the chain ascends to NULL, with a free total no higher than before |
| `Heap.MergeIsBounded` | kernel/memory.c:66-73 | after each store of a merge the chain ascends to NULL, with a free total of at least the old one and at most the old and the new one together |
| `Heap.KernelHeap.constructor` | kernel/memory.c:21-25 | the region holds one free block |
| `Heap.KernelHeap.Split` | kernel/memory.c:40-49 | the stores of a split give the two blocks of the model, keep live payloads, and can be interrupted anywhere |
| `Heap.KernelHeap.Kmalloc` | kernel/memory.c:28-60 | the loop over headers in memory gives pointer and blocks of the model; live payloads are kept; an interrupt after any store finds a chain to NULL and a free total never above the one before the call; and no interrupt since the start has found more than 128 KB free |
| `Heap.KernelHeap.Kfree` | kernel/memory.c:63-74 | so does `kfree`, NULL included; the free total an interrupt finds is between the old one and the sum of old and new; and no interrupt since the start has found more than 128 KB free |
| `Heap.KernelHeap.StorePayload` | kernel/memory.c:51-52 | a client store into a live payload leaves blocks, chain and all other payloads as they are |
| `Heap.KernelHeap.GetFreeMemory` | kernel/memory.c:77-89 | terminates in every state whose chain ascends to NULL, also inside `kmalloc` and `kfree`, with the sum of the free sizes |
| `Heap.KernelHeap.GetUsedMemory` | kernel/memory.c:97-109 | the same for the used sizes |
| `FsTree.LinkKeepsTree` | fs/src/skullfs.c:192-216 | a new entry with an unused name keeps the tree a tree: nodes are exactly the listed names, names unique and never `.` or `..` |
| `FsTree.PruneKeepsTree` | fs/src/skullfs.c:326-369 | removing an entry with all below it keeps the tree a tree |
| `FsModel.Separation` | fs/src/skullfs.c:8-26 | every reachable node, struct, entry, data record and buffer is in a live heap block of its own; no record serves two purposes |
| `FsModel.NodesAreDistinct` | fs/src/skullfs.c:166-189 | two paths never lead to the same node |
| `FsModel.FlagsTell` | fs/src/fs.c:87-140 | the flag bits tell directories from files as the tree does |
| `FsModel.FileLinked` | fs/src/skullfs.c:244-276 | the records after creating a file represent the tree with an empty file more |
| `FsModel.DirLinked` | fs/src/skullfs.c:279-323 | the same for a directory, with its parent pointer to the directory that lists it |
| `FsModel.DeleteUnlinks` | fs/src/skullfs.c:219-241 | after cutting an entry out of the list and freeing its node, the chain and the count leave the entry out, and no record of another node has changed |
| `FsModel.UnlinkShape` | fs/src/skullfs.c:219-241 | and then the records represent the pruned tree |
| `FsModel.BehindElsewhere` | fs/src/skullfs.c:326-369 | freeing what is behind one node leaves every other node as it was |
| `FsModel.GrownFits` | fs/src/skullfs.c:53-57 | doubling stops without 32-bit wrap-around for requests up to 2^31 |
| `FsModel.GrownIsFirstDoubling` | fs/src/skullfs.c:53-57 | the capacity after a resize is the first doubling of the old one that is enough |
| `FsModel.SpliceWrites` | fs/src/skullfs.c:121-121 | the new bytes are in place, all other old bytes as they were |
| `FsModel.CopyingIsAmortised` | fs/src/skullfs.c:48-71 | over any run of sizes the bytes copied by doubling resizes are at most the capacity gained |
| `SkullFs.FileSystem.Search` | fs/src/skullfs.c:166-241 | the walk along the entries finds the first entry of a name, its predecessor and its place, or nothing exactly if the name is not listed |
| `SkullFs.FileSystem.Finddir` | fs/src/skullfs.c:166-189 | looks up `.`, `..` and names as the tree does; `..` of the root is the root |
| `SkullFs.FileSystem.AddEntry` | fs/src/skullfs.c:192-216 | puts an entry in front exactly when the name is unused and a block for it is there |
| `SkullFs.FileSystem.RemoveEntry` | fs/src/skullfs.c:219-241 | takes exactly the entry of that name out of the list and frees its block |
| `SkullFs.FileSystem.NewNode` | fs/src/fs.c:87-140 | allocates a node, and an inode number if that succeeds |
| `SkullFs.FileSystem.CreateFile` | fs/src/skullfs.c:244-276 | succeeds exactly when the parent is a directory, the name is free and both blocks are there; the inode counter moves exactly if the node was asked for and its block was there; without success records and tree are unchanged and the heap is as before up to merging |
| `SkullFs.FileSystem.CreateDir` | fs/src/skullfs.c:279-323 | the same with three blocks |
| `SkullFs.FileSystem.UndoDir` | fs/src/skullfs.c:297-316 | the blocks of a directory that could not be linked go back, and the heap with them |
| `SkullFs.FileSystem.FreeFileData` | fs/src/skullfs.c:74-81 | frees buffer and data record, if there are any |
| `SkullFs.FileSystem.FreeDir` | fs/src/skullfs.c:343-355 | the loop that reads each next entry before freeing this one frees every entry once, and the struct |
| `SkullFs.FileSystem.Delete` | fs/src/skullfs.c:326-369 | succeeds exactly for a listed name that is a file, or a directory with at most two entries; then the subtree is out of the tree, and entry, node and what is directly behind the node were freed, in a known order; `.` and `..` of a larger directory are refused |
| `SkullFs.FileSystem.AllocateFileData` | fs/src/skullfs.c:32-45 | an empty buffer of the requested capacity, or nothing and the heap given back |
| `SkullFs.FileSystem.GrowCapacity` | fs/src/skullfs.c:53-57 | the doubling loop computes the first doubling that is enough |
| `SkullFs.FileSystem.MoveFileData` | fs/src/skullfs.c:59-71 | carries the bytes over into a fresh buffer that does not alias the old one, frees that, and adds what it copied to the count |
| `SkullFs.FileSystem.ResizeFileData` | fs/src/skullfs.c:48-71 | succeeds exactly when the capacity is enough or a block for the larger buffer is there; the bytes are carried over into a buffer that does not alias the old one; otherwise nothing changed |
| `SkullFs.FileSystem.Write` | fs/src/skullfs.c:101-123 | succeeds exactly when the memory is there; then length and bytes are as promised, gaps unspecified, in exactly the memory the write asked for, and size, capacity and bytes copied moved as the meter says; otherwise tree and records are unchanged and the heap is as before up to merging |
| `SkullFs.FileSystem.Read` | fs/src/skullfs.c:84-98 | returns the bytes from the offset on, as many as asked for or as the file has |
| `SkullFs.FileSystem.Readdir` | fs/src/skullfs.c:126-163 | index 0 is `.`, 1 is `..`, then each entry once, and NULL exactly from there on; the inode is that of the node the name is found to mean |
| `SkullFs.EntryLists` | fs/src/skullfs.c:126-189 | `readdir` and `finddir` agree on every entry |
| `SkullFs.FileMade` | fs/src/skullfs.c:244-276 | a file whose entry was made is part of the tree, and all invariants hold |
| `SkullFs.DirMade` | fs/src/skullfs.c:279-323 | so is a directory |
| `SkullFs.TwoRecordsUndone` | fs/src/skullfs.c:297-316 | two blocks allocated last and freed first in reverse order leave the heap as it was, up to merging |
| `SkullFs.WriteDone` | fs/src/skullfs.c:101-123 | the records after a write represent the tree with the new bytes |
| `SkullFs.FileSystem.Mount` | fs/src/skullfs.c:372-399 | a root exactly if its two blocks are there; then each of the three default directories is made exactly if its three blocks are there at that moment, with the records and the inode number a directory gets |
| `SkullFs.BootHasRoom` | fs/src/skullfs.c:372-399 | after `memory_init` all three are made, and 64152 bytes are left in one block behind them |
| `SkullFs.BumpedDir` | fs/src/skullfs.c:279-323 | a directory made on a heap in use up to its last block takes 380 bytes off that block: a node of 192, a struct of 16 and an entry of 136 with their headers, right behind each other |
| `SkullFs.BumpedFile` | fs/src/skullfs.c:244-276 | a file takes 352: a node of 192 and an entry of 136 |
| `SkullFs.BumpedData` | fs/src/skullfs.c:32-45 | the first write to a file takes a block of 16 and one of the bytes it reaches, rounded up to a multiple of 8, or of 256 if it reaches none |
| `PathModel.WalkIsNormal` | fs/src/path.c:8-61 | a walk that arrives, arrives at the normal form of its path |
| `PathModel.NormalisationIsSound` | fs/src/path.c:8-61 | removing empty and `.` components and cancelling `x/..`, with `..` at the root staying there, does not change the node a path leads to |
| `PathModel.WalkArrivesIff` | fs/src/path.c:22-60 | a walk arrives if and only if every normalised prefix is a node, and every proper one a directory |
| `PathModel.ComponentsSplit` | fs/src/path.c:64-114 | the components of a path are those of its parent text, then its file name unless that is empty |
| `PathModel.LeadingSlash` | fs/src/path.c:14-17 | a leading slash adds no component |
| `Libc.Strlen` | libc/string.c:46-50 | the length of the text |
| `Libc.Strncpy` | libc/string.c:58-67 | copies at most n characters and fills up with NULs |
| `Libc.Strcat` | libc/string.c:86-93 | appends a text |
| `Libc.Strncat` | libc/string.c:95-106 | appends at most n characters of a text |
| `Libc.Strcmp` | libc/string.c:69-75 | zero exactly for equal texts, otherwise the difference at the first place where they differ |
| `PathWalk.ResolvedIsFold` | fs/src/path.c:8-61 | for at most 255 bytes, resolving is the left fold of `finddir` over the non-empty components |
| `PathWalk.ResolvedBySteps` | fs/src/path.c:64-114 | for at most 255 bytes, resolving is what the file name means in the parent directory, or the parent if the file name is empty |
| `PathWalk.ResolvedIsNormal` | fs/src/path.c:8-61 | a path that resolves leads where its normal form leads |
| `PathWalk.ResolvePath` | fs/src/path.c:8-61 | the loop that overwrites slashes in its copy computes that node, or NULL |
| `PathWalk.GetParentDir` | fs/src/path.c:64-94 | the node of the text up to the last slash |
| `PathWalk.GetFilename` | fs/src/path.c:97-114 | the text behind the last slash |
| `FsCommands.Mkdir` | kernel/fs.c:256-288 | makes a directory exactly when the parent is there, the name is free and three blocks are, with the records of one and the next inode number; otherwise nothing a path can reach changes and the heap is as before up to merging (`FsPaths.MkdirMakes` says it of the path) |
| `FsCommands.Touch` | kernel/fs.c:291-323 | the same for a file and two blocks |
| `FsCommands.Rm` | kernel/fs.c:326-357 | removes exactly what the tree allows to be removed, and changes nothing otherwise (`FsPaths.RmRemoves` says it of the path) |
| `FsCommands.Ls` | kernel/fs.c:227-253 | shows the listing of the directory its argument leads to, or of the root, or reports that there is none |
| `FsCommands.ListDirectory` | kernel/fs.c:187-224 | the loop over indices ends after listing `.`, `..` and every entry once |
| `FsCommands.Cat` | kernel/shell.c:230-283 | shows the bytes of a file of the root directory, all of them, or reports that there is none |
| `FsCommands.ReadAll` | kernel/shell.c:258-276 | the loop over a 256-byte buffer reads the whole file |
| `FsCommands.JoinWords` | kernel/fs.c:394-401 | the in-place concatenation gives the words with single blanks between them |
| `FsCommands.OpenForWrite` | kernel/fs.c:371-387 | the node the path leads to, or a new file exactly if it may be made and its blocks are there |
| `FsCommands.WriteText` | kernel/fs.c:371-415 | succeeds exactly if the file is there or can be made and the text finds its memory; the file then holds the text in the memory it asked for, and otherwise nothing a path can reach changed, a new empty file apart |
| `FsCommands.WriteTo` | kernel/fs.c:389-415 | the same for a node that is there: success exactly for a file with memory for the text |
| `FsCommands.WritesIff` | kernel/fs.c:371-415 | when `write` succeeds, in terms of the state it starts from |
| `FsCommands.ReadAt` | fs/src/fs.c:8-14 | reading the node of a path gives the bytes the file has there, and nothing for a directory or where no node is |
| `FsCommands.WriteAt` | fs/src/fs.c:16-22 | writing to the node of a path has the effect of a write to a file whose memory is there, and none on a directory or where no node is |
| `FsCommands.WritesMean` | kernel/fs.c:403-415 | what is written with success is in the file, and otherwise at most an empty file is new in the tree |
| `FsRuns.Perform` | kernel/fs.c:227-415 | each command succeeds exactly when it should, and has exactly its effect on records, tree, heap and inode counter |
| `FsRuns.Session` | kernel/fs.c:227-415 | in any session of commands, and of reads and writes at any offset, each one has its effect on the state the one before it left; every state in between is sound, and no moment shows an interrupt more than 128 KB free |
| `FsRuns.SessionFromBoot` | fs/src/skullfs.c:372-399 | so does any session after `memory_init` and `skullfs_init`, which starts on the three default directories |
| `FsRuns.CatShowsWhatWasWritten` | kernel/fs.c:403-405 | `cat` shows what `write` wrote, with the rest of a longer old text behind it |
| `FsRuns.CopiedIsPaid` | fs/src/skullfs.c:48-71 | in every state, the bytes the resizes of a file have copied are at most the capacity it gained |
| `FsRuns.WriteRun` | fs/src/skullfs.c:48-123 | any run of writes moves size, capacity and bytes copied as the meter says, and copies at most as much as the capacity grows |
| `FsRuns.FileLife` | fs/src/skullfs.c:244-369 | create, writes within the first capacity, delete: tree as before, heap as before up to merging, whatever failed in between |
| `FsRuns.LifeUndone` | fs/src/skullfs.c:326-369 | the frees of a delete undo the allocations of a file, because they run in reverse order |
| `FsRuns.DirLifeCoarsensIff` | fs/src/skullfs.c:279-369 | creating and deleting a directory leaves exactly the live blocks there were, and gives the heap back, up to merging, if and only if the entry was not cut off right behind the struct |
| `FsRuns.DirLife` | fs/src/skullfs.c:279-369 | so do `create_dir` and `delete` on any state of the file system, which leave the tree as it was |
| `FsRuns.DirLifeFragments` | fs/src/skullfs.c:343-366 | on no heap that is in use up to its last block, with room in that one, does it give the heap back |
| `FsRuns.DirLifeAfterMount` | fs/src/skullfs.c:279-399 | such as the one a mount leaves: there, the same live blocks and a boundary more |
| `FsRuns.FileTakes` | fs/src/skullfs.c:32-123 | creating a file and writing to it takes 392 bytes and the rounded size off a heap in use up to its last block |
| `FsPaths.MkdirMakes` | kernel/fs.c:256-288 | `mkdir` of a path: exactly if its directory is there, nothing is at the path and three blocks are there, the path leads to a new, empty directory afterwards; nothing else in the tree has changed but the list it is in |
| `FsPaths.TouchMakes` | kernel/fs.c:291-323 | `touch` of a path: the same for an empty file and two blocks |
| `FsPaths.RmRemoves` | kernel/fs.c:326-357 | `rm` of a path: exactly if it leads to a file or to a directory with at most two entries, and is not `.` or `..`, it leads nowhere afterwards; just what was at or below it is gone |
| `FsPaths.WriteMakes` | kernel/fs.c:371-415 | `write` to a path where nothing is: exactly if its directory is there and two blocks are, there is a new file, which holds the text exactly if the write succeeds |
| `FsPaths.WriteChanges` | kernel/fs.c:371-415 | `write` to a path that leads somewhere: with success only the file there has changed, from its start on |
| `FsPaths.NamelessIsLost` | fs/src/path.c:97-114 | a path that is empty or ends in a slash gives an empty file name, and no path ever leads to an entry with one |
| `FsPaths.LsShows` | kernel/fs.c:187-253 | `ls` of a path shows something exactly if a directory is there, and then a name exactly if the path with that name behind it leads to something, with a slash if that is a directory |
| `FsPaths.SlashFreeFromBoot` | kernel/fs.c:256-415 | from the mount on no command ever makes a name with a slash in it |
| `FsPaths.CatShowsIff` | kernel/shell.c:230-283 | of the paths that lead to a file, `cat` shows the bytes exactly for those without a slash |
| `FsPaths.CatShowsFiles` | kernel/shell.c:230-283 | a plain name shows something exactly if it leads to a file |
| `FsPaths.DotsLead` | fs/src/skullfs.c:166-189 | behind the path of a directory `.` leads to itself and `..` to the directory it is in, or from the root to the root |
| `FsPaths.LongPathIsCut` | fs/src/path.c:8-30 | a leading slash makes no difference, and only the first 255 characters count |
| `FsEntries.RemovedUpToTwo` | fs/src/skullfs.c:336-341 | a directory is made, any number of files in it, and it is removed: the removal succeeds if and only if there were at most two files, and then the path leads nowhere |
| `FsEntries.EntriesFromBoot` | fs/src/skullfs.c:326-399 | so it is from `memory_init` and the mount on, for up to 100 files, which all find their memory |
| `FsLeaks.FileLeaksNothing` | fs/src/skullfs.c:244-276 | a new file leaves no block without an owner |
| `FsLeaks.DirLeaksNothing` | fs/src/skullfs.c:279-323 | nor does a new directory |
| `FsLeaks.WriteLeaksNothing` | fs/src/skullfs.c:48-123 | nor does a write: the buffer it replaces is freed |
| `FsLeaks.DeleteLeaks` | fs/src/skullfs.c:326-369 | a delete loses exactly the records of the nodes below the one it removes |
| `FsLeaks.BelowIff` | fs/src/skullfs.c:336-355 | there are such records if and only if the node is a directory that lists a name |
| `FsLeaks.DeleteAccounted` | fs/src/skullfs.c:326-369 | blocks and records stay in step: each record a delete drops is freed, once |
| `FsLeaks.EffectLeaks` | kernel/fs.c:227-415 | what any command loses: the records below a node it removes, and nothing else |
| `FsLeaks.TraceLeaks` | kernel/fs.c:227-415 | after any session a record has no owner if and only if it had none before or one of the commands cut it off |
| `FsLeaks.SessionLosesIff` | kernel/fs.c:227-415 | a session loses no block if and only if none of its commands removes a directory that is not empty |
| `FsLeaks.BootSessionLosesIff` | fs/src/skullfs.c:326-399 | from `memory_init` and the mount on: every live block belongs to a node of the tree if and only if no such directory was removed |
| `FsLeaks.RemovedDirectoryLosesItsFile` | fs/src/skullfs.c:326-369 | right after the mount: a directory, a file in it, and the directory removed; blocks are lost |
| `FsInodes.EffectNumbered` | fs/src/skullfs.c:264-301 | a command keeps all inode numbers apart and below the counter, and moves the counter by at most one, unless that goes round |
| `FsInodes.TraceNumbered` | fs/src/skullfs.c:264-301 | so does any session of fewer commands than there are numbers left |
| `FsInodes.NumbersAreUnique` | fs/src/skullfs.c:264-392 | from the mount on, as long as fewer than 2^32 nodes can have been made, no two nodes of the tree share an inode number |
| `FsInodes.NumberTellsNode` | fs/src/skullfs.c:126-163 | then the numbers of two listed entries agree if and only if their names mean the same node |
| `FsContents.WriteHolds` | fs/src/skullfs.c:101-123 | a write that succeeds leaves its bytes at their offset of its file |
| `FsContents.EffectKeepsBytes` | kernel/fs.c:227-415 | bytes of a file stay under every command that does not write over them and does not remove the file or a directory above it |
| `FsContents.LastWriteIsRead` | fs/src/skullfs.c:84-123 | in any session a read inside what an earlier command wrote shows just that, if nothing in between was written over it and the file was not removed, by whatever paths the two reached the file |
| `ConsoleModel.WindowIsLastRows` | kernel/vga_manager.c:72-118 | after any output a window equals the last 25 rows of a terminal that never scrolls, with the same cursor |
| `Tape.TerminalIsTape` | kernel/vga_manager.c:72-99 | that terminal is a tape of cells without rows, on which a printable character only fills the next cell, cut into rows of 40 |
| `Tape.TextStands` | kernel/vga_manager.c:72-118 | a printable text of any length, printed from any place: character i stands i places behind the cursor, in rows of 40, as far as it has not been scrolled out; all in front of the cursor is as it was, and the cursor is behind the text |
| `ConsoleModel.PutIsAppend` | kernel/vga_manager.c:72-118 | each character and each colour change keeps that so |
| `ConsoleModel.Put` | kernel/vga_manager.c:72-99 | the cursor stays inside the 40 columns and 25 rows |
| `ConsoleModel.Entry` | kernel/vga_manager.c:130-132 | character and colour can be read back from a cell |
| `GuiModel.Color` | kernel/vga_manager.c:68-70 | foreground and background can be read back from a colour |
| `GuiModel.TextsFit` | gui/gui.c:11-128 | for two-digit clock fields, any heap total and any uptime the texts are printable and fit their rows |
| `GuiModel.UptimeIsElapsed` | gui/gui.c:93-97 | hours, minutes and seconds add up to the elapsed seconds, minutes and seconds below 60 |
| `GuiModel.TickShows` | kernel/timer.c:14-27 | every eighteenth tick leaves the time of its moment readable in row 3, the free kilobytes in row 5 and the elapsed seconds in row 7, in their colours; the others draw nothing |
| `GuiModel.UptimeIsUpToDate` | kernel/timer.c:14-32 | once 18 timer interrupts have come, row 7 shows the elapsed seconds at every moment, whatever else comes in between |
| `GuiModel.FiredThrough` | kernel/timer.c:14-27 | interrupts in two stretches of time compose, any number at each point |
| `GuiModel.HandledKeepsOtherRows` | gui/gui.c:61-180 | a burst of interrupts changes only rows 3, 5 and 7 of the right half, key strokes nothing |
| `GuiModel.FiredKeepsOtherRows` | gui/gui.c:61-180 | however many interrupts come, only rows 3, 5 and 7 of the right half change |
| `GuiText.FormatTime` | gui/gui.c:11-35 | eight characters in which hour, minute and second are read back, in two digits each, with colons between them |
| `GuiText.FormatMemory` | gui/gui.c:61-78 | the memory text |
| `GuiText.FormatUptime` | gui/gui.c:93-115 | a clock whose hours, minutes and seconds add up to the ticks divided by 18, minutes and seconds below 60 |
| `Console.HalfPoked` | kernel/vga_manager.c:72-99 | a cell written at row y and column x of the buffer changes that cell of one half and nothing of the other |
| `Console.Screen.constructor` | kernel/vga_manager.c:20-45 | both windows are blank with the cursor at the origin; output goes to the kernel window |
| `Console.Screen.FullscreenMoves` | kernel/vga_manager.c:161-181 | in reading order of the 80 columns a printable character moves the cursor one place on, across line ends too |
| `Console.Screen.FullscreenPutchar` | kernel/vga_manager.c:161-181 | one cell changes, or none, and the cursor moves and wraps; nothing scrolls |
| `Console.Screen.ClearLine` | gui/gui.c:80-85 | exactly the right half of one row becomes blank |
| `Console.Screen.FullscreenPuts` | kernel/vga_manager.c:155-159 | a text that fits overwrites its cells of the right half, and nothing else |
| `Console.Screen.DrawTime` | gui/gui.c:161-180 | the time can be read in row 3 of the right half; the left half is untouched |
| `Console.Screen.DrawMemory` | gui/gui.c:61-91 | the free memory in whole kilobytes can be read in row 5; the left half is untouched |
| `Console.Screen.DrawUptime` | gui/gui.c:93-128 | the elapsed seconds can be read in row 7; the left half is untouched |
| `Console.Screen.TimerHandler` | kernel/timer.c:14-27 | counts, draws time, memory and uptime of its moment on every eighteenth tick and nothing on the others, and leaves the left half and the kernel cursor alone |
| `Console.Screen.HandleAll` | kernel/timer.c:14-27 | any burst of timer and keyboard interrupts, one after the other: the panel is the fold of the ticks, all key strokes come to the keyboard in order, so that its ring has every code it had and then the new ones up to its size; the window is untouched |
| `Console.Screen.Interrupts` | kernel/timer.c:14-27 | the same at one point between two statements, with exactly the interrupts of that point |
| `Console.Screen.KeysArriveIff` | drivers/keyboard/keyboard.c:114-120 | at any point of any interleaving the codes taken and waiting are the buffered codes that came so far, in order, if and only if none of them found 127 others waiting |
| `Console.Screen.Scroll` | kernel/vga_manager.c:107-118 | with interrupts between any two cells: the top row goes, a blank one comes in, and beside the window only the interrupts have had an effect, of both kinds |
| `Console.Screen.Clear` | kernel/vga_manager.c:56-66 | every cell of the window is a blank in its colour and its cursor at the origin; beside it only the interrupts have had an effect |
| `Console.Screen.Putchar` | kernel/vga_manager.c:72-99 | with interrupts between any two statements the window is what the character makes of it; beside it only the interrupts have had an effect |
| `Console.Screen.Puts` | kernel/vga.c:11-19 | the window after the characters one by one; a printable text stands in it where `Tape.TextStands` says |
| `Console.Screen.PutDec` | kernel/vga.c:37-55 | prints the decimal digits of every 32-bit number |
| `Console.Screen.Output` | kernel/vga_manager.c:68-118 | for every output and every interleaving of interrupts: the kernel window and cursor are those of the run without interrupts, the last rows of the endless terminal, which reads as the tape; each row and column is its cell of the screen buffer; the right half is what the interrupts alone make of it, with the elapsed seconds in row 7 once 18 ticks have come |
| `Numbers.DigitsHaveValue` | libc/string.c:121-126 | the digits of a number have its positional value, without a leading zero, in every base from 2 to 36 |
| `Numbers.NumeralIsDigits` | libc/string.c:121-126 | they are the only such digits |
| `Numbers.ReverseBetween` | libc/string.c:131-139 | the part between the two ends is reversed in place, the rest is kept |
| `Numbers.Itoa` | libc/string.c:108-142 | leaves exactly those digits, after a minus sign for negative numbers in base 10 |
| `Numbers.PrintedReads` | libc/string.c:108-142 | that text has the value of the number, behind a minus sign in base 10; in other bases a negative number reads as its 32-bit pattern |
| `Numbers.DigitCount` | kernel/vga.c:43-43 | a number below 10^k has at most k digits, and conversely |
| `Numbers.ReadNumber` | kernel/shell.c:355-361 | the value of the leading digits, reached without overflow if that value is an `int` |
| `Numbers.ReadsBack` | kernel/shell.c:355-361 | reading what was printed gives the number back, whatever follows |
| `Keyboard.ModifiersFollow` | drivers/keyboard/keyboard.c:80-113 | what the handler does to the modifier byte when a code comes keeps it equal to what the history says |
| `Keyboard.ModifiersTell` | drivers/keyboard/keyboard.c:80-113 | the byte tells whether control and alt are down and which locks were pressed an odd number of times; its shift bit is that of the last move of a shift key |
| `Keyboard.ShiftTellsIff` | drivers/keyboard/keyboard.c:84-98 | the shift bit tells whether a shift key is down if and only if no shift key was last released over the other |
| `Keyboard.ShiftIsLost` | drivers/keyboard/keyboard.c:84-87 | left down, right down, right up: left shift is down and the bit is clear |
| `Keyboard.CapsReachesOneRow` | drivers/keyboard/keyboard.c:134-141 | without shift, caps lock changes the characters of the codes 0x10 to 0x1A and of no others |
| `Keyboard.ShiftGivesCapitals` | drivers/keyboard/keyboard.c:134-141 | with shift, caps lock changes nothing, and a letter is its capital; without shift, caps lock gives the capital exactly of the letters from Q to P |
| `Keyboard.EveryCharacterIsTyped` | drivers/keyboard/keyboard.c:12-70 | for every printable character there is a key that gives it, with or without shift |
| `Keyboard.ModifiersAreNotBuffered` | drivers/keyboard/keyboard.c:80-120 | all make codes go to the ring but those of control, the shift keys, alt and the three locks |
| `Keyboard.RingGrows` | drivers/keyboard/keyboard.c:116-119 | the ring refuses a code exactly when 127 are waiting, and otherwise has it behind the others |
| `Keyboard.RingShrinks` | drivers/keyboard/keyboard.c:157-164 | the indices are equal exactly when nothing waits; advancing the start drops the first code |
| `Keyboard.NothingIsLostIff` | drivers/keyboard/keyboard.c:114-120 | codes taken and codes waiting are the buffered codes that came, in order, if and only if none came while 127 others waited; otherwise they are fewer |
| `Keyboard.NothingIsLost` | drivers/keyboard/keyboard.c:114-120 | as long as the main loop is never 127 buffered codes behind, all of them get through, in order |
| `Keyboard.KeyboardDriver.constructor` | drivers/keyboard/keyboard.c:186-216 | nothing has come, nothing waits |
| `Keyboard.KeyboardDriver.Handler` | drivers/keyboard/keyboard.c:72-126 | keeps the ring equal to the codes that must be waiting after the history, which a code enters unless 127 wait, and the modifier byte equal to what the history says |
| `Keyboard.KeyboardDriver.Advance` | drivers/keyboard/keyboard.c:163-164 | moving the start delivers the first waiting code |
| `Keyboard.KeyboardDriver.ScancodeToAscii` | drivers/keyboard/keyboard.c:129-142 | the character of a code under the shift bit and the caps lock of the history |
| `KeyInput.TakeKey` | drivers/keyboard/keyboard.c:163-165 | takes the first waiting code, whatever comes in between reading it and moving on |
| `KeyInput.GetScancode` | drivers/keyboard/keyboard.c:170-179 | 0 if nothing waits, otherwise the first code, with interrupts of both kinds between any two steps |
| `KeyInput.WaitForKey` | drivers/keyboard/keyboard.c:157-161 | the loop that halts ends when a code is there, with all codes that waited before still in front; both interrupts may come any number of times before |
| `KeyInput.GetChar` | drivers/keyboard/keyboard.c:157-167 | waits for a code, takes the first one, and gives its character under the shift bit and caps lock of the history at that moment |
| `KeyInput.IsKeyPressed` | drivers/keyboard/keyboard.c:145-154 | true exactly if the code is waiting, although more codes come in during the search |
| `Words.ArgsAreWords` | kernel/shell.c:435-458 | fewer words than room: exactly the words; otherwise the first ones and the untouched rest of the line as the last |
| `Words.BlanksSeparate` | kernel/shell.c:440-453 | a blank or a tab separates words, wherever it stands |
| `Words.OneWordOf` | kernel/shell.c:440-453 | a text without one is one word |
| `Words.WordsOfJoined` | kernel/shell.c:435-458 | the words of a text made of blank-free words are those words |
| `Words.WordsKeepText` | kernel/shell.c:440-453 | the words keep every character that is not a blank, in order |
| `Words.ParseJoined` | kernel/shell.c:188-200 | parsing arguments joined by single blanks gives the arguments back |
| `Words.Reparse` | kernel/shell.c:188-200 | joining what a line parses to and parsing it again changes nothing, for every line |
| `Words.JoinedIsNoLonger` | kernel/shell.c:188-200 | the arguments of a line joined again are no longer than the line |
| `Words.ArgumentsFit` | kernel/fs.c:394-401 | nor are the arguments from any one on, so that the text of `write` fits its buffer |
| `Tokenizer.ParseArguments` | kernel/shell.c:435-458 | the in-place tokenizer leaves exactly these arguments as texts at the places in `argv`, and NULL behind them |
| `Shell.Parse` | kernel/shell.c:489-497 | the same on the copy of the submitted line, with at most 15 arguments |
| `Shell.Lookup` | kernel/shell.c:506-514 | the walk along the list finds a command exactly if it is registered |
| `Shell.CmdEcho` | kernel/shell.c:188-200 | prints the arguments joined by single blanks |
| `Shell.RunLine` | kernel/shell.c:488-520 | prints a newline, the reply of the command or that there is none, and the prompt, whatever interrupts come in between |
| `Shell.EnterPrints` | kernel/shell.c:488-520 | Enter on a line of blanks prints a new prompt, on one that names a command its reply before that, and otherwise the unknown name with a hint |
| `Shell.TranscriptIsTyping` | kernel/shell.c:522-553 | without an Enter, what the loop prints is what the line editor says of the window |
| `Shell.PromptAfterEnter` | kernel/shell.c:484-553 | after Enter the prompt is shown with an empty line, if the command ended its last line |
| `Shell.LineShownIff` | kernel/shell.c:522-553 | after any keys, an Enter and more keys: the row shows prompt and line if and only if that line never reached 31 characters |
| `Shell.ShellLoop.HandleKey` | kernel/shell.c:529-551 | one key changes the line as the fold does and prints its echo; Enter submits |
| `Shell.ShellLoop.ServeKey` | kernel/shell.c:528-551 | one turn of the loop: the key is the character of the next code in order, under the shift and caps lock of a moment after that code was taken and before the next is |
| `Shell.ShellLoop.Run` | kernel/shell.c:522-553 | for every interleaving of key strokes and timer interrupts, during waiting, taking keys and output alike: the keys are the characters of the codes taken, which are the first buffered ones that came unless one found 127 others waiting; the state is their fold, the window is what their echoes and replies make of it, the right half what the timer makes of it; and while a line is typed the row shows it exactly if it never reached 31 characters |
| `LineEditor.SubmittedIsLine` | kernel/shell.c:530-551 | Enter submits the type and backspace fold of the keys since the last Enter |
| `LineEditor.LineIsShort` | kernel/shell.c:547-549 | at most 79 printable characters, no NUL |
| `LineEditor.LineKeeps` | kernel/shell.c:540-551 | of printable keys the first 79 are kept, and either erasing key takes the last one back |
| `LineEditor.PromptIsShown` | kernel/shell.c:484-486 | whatever was printed since the screen was cleared, a prompt after a newline is shown at column 0 with an empty line |
| `LineEditor.KeyShown` | kernel/shell.c:540-551 | a key that leaves the line below 31 characters leaves prompt and line shown, blanks behind them |
| `LineEditor.ShownIff` | kernel/shell.c:522-553 | after any keys the row shows exactly prompt and line if and only if the line never reached 31 characters |
| `LineEditor.ThirtyOneAreLost` | kernel/shell.c:540-551 | 31 characters and one backspace: the row does not show the line |
| `FsShell.ArgumentsAreTexts` | kernel/fs.c:360-401 | the arguments of any typed line from the third on are a text that fits the buffer of `write`, and never an empty one |
| `FsShell.LineIsWellformed` | kernel/fs.c:227-415 | every line that can be typed makes a command with arguments the file system accepts, or none, as with too few arguments |
| `FsShell.ProcessLine` | kernel/shell.c:488-520 | a submitted line has exactly the effect of its command, or none (`FsTyped` says which line has which) |
| `FsShell.Run` | kernel/shell.c:522-553 | the shell loop with its commands, under every interleaving of interrupts: the file system goes through the effects of the lines that the keys submit, one after the other |
| `FsShell.LinesAreTrace` | kernel/shell.c:488-520 | lines that ran are a session of their file commands, so that all that is proved of sessions holds |
| `FsShell.TypedIsSubmitted` | kernel/shell.c:529-551 | lines typed with an Enter each are submitted as they are |
| `FsShell.TypedTextIsShown` | kernel/shell.c:230-283 | typing `write` with a name and a text, then `cat` with the name: the first succeeds exactly if the file is there or can be made and memory is, and the second then shows the text, with the rest of a longer old one behind it |
| `FsShell.TypedTextIsOnScreen` | kernel/shell.c:230-283 | on a screen that was cleared once, the text then stands alone in a row of the window, with the next prompt below it, when it is no shorter than the old one and fits a row |
| `FsTyped.TypedMkdir` | kernel/fs.c:256-288 | the line `mkdir` with a path, typed: exactly if its directory is there, nothing is at the path and three blocks are, a new empty directory is there afterwards |
| `FsTyped.TypedTouch` | kernel/fs.c:291-323 | the line `touch` with a path: the same for an empty file and two blocks |
| `FsTyped.TypedRm` | kernel/fs.c:326-357 | the line `rm` with a path: exactly what is a file or a directory with at most two entries is gone from there |
| `FsTyped.TypedLs` | kernel/fs.c:227-253 | the line `ls` with a path: the names with which the path leads on, if a directory is there |
| `FsTyped.TypedLsAlone` | kernel/fs.c:227-253 | the line `ls`: the same for the root |
| `FsTyped.TypedCat` | kernel/shell.c:230-283 | the line `cat` with a path that leads to a file: its bytes, exactly if the path has no slash |
| `FsTyped.TypedWrite` | kernel/fs.c:360-415 | the line `write` with a path where nothing is, and a text: exactly if the directory is there and two blocks are, a new file is there, with the text exactly if memory for it was found |
| `FsTyped.TypedNothing` | kernel/fs.c:227-364 | a line that names none of these, or with too few arguments, changes nothing |

## Left out

- Heap.KernelHeap.StorePayload: SkullFS does not go through it. Its records are kept as typed values, one for each live block, and not as bytes of the region; that two records never share memory is `FsModel.Separation`. What uninitialised bytes hold is arbitrary.
- SkullFs.FileSystem.CreateFile: names are at most 127 bytes long; the code cuts longer ones. The shell's line of 79 characters keeps to that.
- SkullFs.FileSystem.CreateDir: the same.
- FsCommands.Mkdir: the same for the file name of its path.
- FsCommands.Touch: the same.
- FsCommands.OpenForWrite: the same.
- FsCommands.WriteText: the same, and the text is at least one word, none of them empty, of at most 255 characters together; every line of the shell keeps to that (`FsShell.ArgumentsAreTexts`), and with fewer arguments the command only prints its usage (`FsShell.CommandOf`).
- FsCommands.WriteTo: the same for the text.
- FsCommands.JoinWords: the same; the code cuts longer texts.
- SkullFs.FileSystem.Delete: the name is not `.` or `..` of a directory with at most two entries; the code would free that directory and go on using it.
- FsCommands.Rm: the same for the file name of its path.
- FsCommands.WriteAt: offset and size together are at most 2^31, as for a write to the node.
- FsCommands.ReadAt: offset and size together do not wrap around 32 bits.
- SkullFs.FileSystem.Write: offset and size together are at most 2^31, so that doubling does not wrap around, and the node is a file, as only files have a write function (`FsCommands.WriteAt` has the other nodes); the bytes of a gap between the old end and the offset are unspecified, as in the code.
- SkullFs.FileSystem.ResizeFileData: the new size is at most 2^31, for the same reason.
- SkullFs.FileSystem.MoveFileData: the same.
- SkullFs.FileSystem.GrowCapacity: the same.
- SkullFs.FileSystem.AllocateFileData: the first size is at most 2^32 - 8, above which rounding wraps around.
- SkullFs.FileSystem.Read: offset and size together do not wrap around 32 bits, and the node is a file (`FsCommands.ReadAt` has the other nodes).
- SkullFs.FileSystem.Search: the code has this loop three times, in finddir, add and remove; the model has it once.
- SkullFs.FileSystem.RemoveEntry: the number of entries of a directory is unbounded in the model; 64 KB of heap keep it small.
- FsRuns.CopiedIsPaid: the first capacity and the number of bytes copied are bookkeeping fields of the data record which the C struct does not have; nothing reads them.
- FsRuns.Session: the commands are those whose methods ask for nothing more, as listed here, and no `rm` of `.` or `..`.
- FsRuns.WriteRun: starts when the file has its data record, and no write reaches beyond 2^31.
- FsRuns.FileLife: names are at most 127 bytes long.
- FsRuns.DirLife: the same.
- FsRuns.FileTakes: the same; and there is room.
- FsPaths.LsShows: the path and the name behind it have at most 255 characters together, as resolving looks at no more.
- FsTyped.TypedMkdir: paths of at most 70 characters, which leaves room for every command in a line of 79; the same for the other lines there.
- Numbers.Itoa: not for INT_MIN in base 10, where the negation overflows.
- Numbers.ReadNumber: numbers above INT_MAX overflow in the code and are excluded.
- GuiModel.TextsFit: the fields of the clock are valid BCD, that is below 100, and the free total is at most 128 KB; `Heap.KernelHeap.Kmalloc` and `Heap.KernelHeap.Kfree` show that no moment of theirs reads more.
- Console.Screen.FullscreenPutchar: asks for a cursor on the screen; the code writes beyond the buffer after the last row.
- Console.Screen.FullscreenPuts: texts that fit behind the cursor in the right half, which is all the timer draws.
- Console.Screen.DrawMemory: the used total, which is converted and not shown.
- Console.Screen.SetContext: the right window is selected only while interrupts are off, as during start-up.
- Keyboard.KeyboardDriver.Handler: the keyboard is the XT one whose codes keyboard.h lists; the prefix 0xE0 is the release of a key nobody asks for, and keys that differ only by it, as the two control keys do, are told apart no more than in the code.
- KeyInput.WaitForKey: asks that some key does come, as a wait without end does not return.
- KeyInput.GetChar: the same; reading the modifier byte and the table is one step.
- Console.Screen.Interrupts: which interrupts come at which point is an arbitrary function of the number of points passed; an interrupt is handled as a whole, as the handlers run with interrupts off.
- Shell.ShellLoop.ServeKey: asks that some key does come.
- Shell.ShellLoop.Run: handlers are a function from the number of the command and its arguments to the text they print. The user keeps typing: for every point there is a later one at which a key comes.
- FsShell.Run: a line runs on the file system right after its reply and the prompt were printed, not before; it stops at an `rm` of `.` or `..`. The status panel's heap readings are inputs of the timer.
- FsShell.TypedTextIsOnScreen: that the handler of `cat` prints what the file system shows is an assumption about the handlers, which are functions (`FsShell.CatPrints`).
- Shell.PromptAfterEnter: where the prompt stands after a command that leaves its last line open is not stated.
- Shell.ShellLoop.HandleKey: on Enter the buffer is emptied before the command runs on its copy, not after; nothing reads it in between.
- The messages that the file system commands print, the relative paths of `cd` and `pwd`, and `strncmp`, which the modelled code does not use.
- Port I/O, cursor registers, PIC, IDT, RTC and ATA hardware, boot and interrupt assembly: no logic beyond register access. Clock values and scancodes are inputs.
- The initial ramdisk, the fallback file system of kernel/fs.c, system calls, BIOS, games and the status panel's fixed parts: they would only add easier members.
