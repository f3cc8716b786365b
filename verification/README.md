# A verified model of xv6 for RISC-V

The project models the parts of the xv6 kernel and of its user programs whose correctness is not plain from one
function: the crash-safe storage stack, page tables and physical pages, the concurrency protocols, the user-level heap,
the shell parser and the pattern matcher. It proves properties of them for all inputs, all runs and all interleavings.
`dafny verify dfyconfig.toml` checks everything; no file needs a library.

## How it is built

| part | files |
|---|---|
| redo log: protocol, refinement, runs, panics, device code | LogHeader, LogProtocol, LogTheorems, LogRuns, LogPanics, LogDevice |
| files: disk layout, ownership, bytes, writing, truncation, operations | FsLayout, FsState, FsFrames, FsFiles, FsWrite, FsTrunc, FsOps |
| initial image; file system on top of the log | MkFs; Transactions, LogSerial, LogShared, FsCrash |
| page tables, page allocator, address spaces | Sv39, VmState, VmRange, VmCost, VmUnmap, VmGrow, VmFree, VmCopy, VmOps |
| user-level heap | HeapRing, Umalloc, HeapOps |
| shell parser; its grammar on tokens and on characters | ShellGrammar, ShellLex, Shell; ShellText, ShellSpacing |
| disk driver | VirtQueue, VirtioDisk |
| sleep and wakeup; their clients sleep locks and pipes | SleepWakeup; SleepLock, PipeSleep |
| fork, exit, wait, scheduling | ProcState, ProcOps |
| buffer cache | BufList, Bio |
| directories and link counts | LinkState, Links, LinkRuns |
| pipe; pattern matcher; bytes and words | PipeRing; Grep; Words |

Code that updates state is a class whose methods follow the source's loops and assignments; its tables are fields that
the methods reassign. A critical section, or one step of a device, is one method (or one step of a transition system),
so an invariant that all of them keep holds in every interleaving. The log and sleep/wakeup are transition systems with
theorems over whole runs; for the log, the device-level methods are proved to write exactly the disk images of the
protocol's steps. The file-system methods record every block they pass to log_write; the recorded transactions are run
through the log's transition system, so that what the methods promise holds of the disk after any crash. A call
that the source answers with a panic is excluded by `requires` or is an outcome of its own.

The recurring device is a ghost map from resources to their one owner: from disk blocks to slots of inodes, from
physical pages to their use, from heap units to blocks, from descriptors to requests. Both directions of it are in the
invariant, so that no resource is shared and none is lost.

## What the code does not do

- mkfs reserves LOGSIZE log blocks, one less than log_write needs, so an operation within its reservation can panic
  (`LogSizeRule`). The rule is exact: panic-free if and only if the log has more blocks.
- log_write tests for a full log before it looks whether the block is already logged (`AbsorbedWriteCanPanic`).
- mkfs rounds the size of the root directory up past a block that does not exist if and only if the directory ended at
  a block boundary (`MkFs.Builder.Finish`); with 62 files it does (`SixtyTwoFiles`).
- Link counts are 16 bits wide and not guarded: they are right if and only if they are at most 32767 (`CountIsExact`).
  With 32768 names unlink panics (`NegativeCount`); with 65536 names iput frees an inode in use (`FreedWhileNamed`).
  `Unlink` and `Reclaim` state the exact conditions.
- create and link accept a directory that has been removed but is still the current directory of a process, and leave an
  inode with a link that nothing can reach (`CreatedInRemoved`); they do so if and only if the directory is not linked
  (`Create`, `Link`). There ".." may name a freed inode, and then creating it or linking to it panics (`ParentGone`).
- A killed writer returns from pipewrite without waking readers that sleep, although it has put bytes into the pipe
  (`KilledWriterForgetsReader`); this is the only way to forget a reader or writer (`ObeysExactly`, `ForgottenExactly`).
- kill with pid 0 marks a free slot, and the next process starts out killed (`KilledAtBirth`).

## Model

| member | source | states |
|---|---|---|
| `LogHeader.EncodeHead` | kernel/log.c:98-112 | The header block after write_head: decoding it gives back exactly the logged block numbers, for every storable list and whatever the block held before. |
| `LogTheorems.StepRefines` | kernel/log.c:66-231 | Every step of the log (begin_op, log_write, end_op, each single block write of a commit or a recovery, a crash) keeps the invariant and is one step of an abstract store that commits all operations at once; only the header write of a non-empty commit changes what is durable. |
| `LogRuns.RunInv` | kernel/log.c:66-231 | The invariant holds in every state of every run, crashes and recoveries included. |
| `LogRuns.GroupCommit` | kernel/log.c:123-171 | In every reachable state logged blocks plus unused reservations fit LOGSIZE, logged blocks are distinct and are home blocks, a commit excludes running operations, and a process asleep in begin_op has a running operation or a commit that will wake it. |
| `LogRuns.PinnedUntilInstalled` | kernel/log.c:66-82 | In every reachable state each block has at most one pin, only logged blocks are pinned, and a logged block without a pin is already installed. |
| `LogRuns.CrashAtomicity` | kernel/log.c:173-199 | In every state of every run, what a crash would leave after recovery is what system calls saw at the last commit, when no operation was under way; nothing of a later transaction and all of the earlier ones. |
| `LogRuns.CrashConsistency` | kernel/log.c:123-199 | Any property of the stored blocks that holds whenever no operation is under way holds of what every crash leaves. |
| `LogRuns.RecoveryKeeps` | kernel/log.c:114-121 | While recovery runs, however often further crashes cut it short, what is durable does not change. |
| `LogRuns.RecoveryRestores` | kernel/log.c:66-121 | After a crash in any state, any number of interrupted recoveries and one complete recovery, the home blocks are the durable ones and the log is empty. |
| `LogRuns.CommitCut` | kernel/log.c:189-199 | A crash after the first k block writes of a commit leaves the post-transaction state exactly if the header write is among them, and the pre-transaction state otherwise. |
| `LogRuns.RecoveryCut` | kernel/log.c:114-121 | A recovery cut after any number of its block writes leaves what the crash before it left. |
| `LogPanics.ReservedNeverPanics` | kernel/log.c:210-219 | With more than LOGSIZE log blocks, log_write panics in no reachable state for an operation within its reservation. |
| `LogPanics.LogSizeRule` | mkfs/mkfs.c:25 | log_write is panic-free for all operations within their reservation in all runs if and only if the log area has more than LOGSIZE blocks; mkfs gives it exactly LOGSIZE. |
| `LogPanics.AbsorbedWriteCanPanic` | kernel/log.c:215-229 | A reachable state in which rewriting a block that is already logged, which would need no new log slot, panics all the same, because the size test comes first. |
| `LogDevice.Log.WriteLog` | kernel/log.c:173-187 | The loop writes the disk images that the protocol's copy steps prescribe, in that order. |
| `LogDevice.Log.FillHead` | kernel/log.c:100-109 | The loop over the header entries computes EncodeHead of the logged blocks. |
| `LogDevice.Log.WriteHead` | kernel/log.c:98-112 | Writes the header block of the current transaction and no other block. |
| `LogDevice.Log.InstallTrans` | kernel/log.c:66-82 | The loop writes the disk images of the install (or replay) steps in order, with or without unpinning. |
| `LogDevice.Log.ReadHead` | kernel/log.c:84-96 | Reads back the block numbers that the header on disk stands for. |
| `LogDevice.Log.Commit` | kernel/log.c:189-199 | The sequence of disk images is exactly the one of the protocol's commit steps, and the end state is the protocol's. |
| `LogDevice.Log.RecoverFromLog` | kernel/log.c:114-121 | The sequence of disk images is exactly the one of the protocol's recovery steps; it ends with an empty log. |
| `LogDevice.Log.BeginOp` | kernel/log.c:123-140 | Sleeps exactly when a commit is under way or the reservation does not fit; otherwise the state is that after the protocol's begin step. |
| `LogDevice.Log.Record` | kernel/log.c:210-231 | Panics exactly under the source's tests; otherwise absorbs a block already logged, or appends and pins it. |
| `LogDevice.Log.LogWrite` | kernel/log.c:210-231 | The object agrees with the protocol's state before and after the protocol's log_write step, and panics exactly where the protocol says so. |
| `LogDevice.Log.EndOp` | kernel/log.c:142-171 | The last operation commits, as the protocol's steps do; any other only gives its reservation back. |
| `FsLayout.WithBitIs` | kernel/fs.c:74-79 | Setting or clearing one bit of a bitmap byte changes that bit and no other. |
| `FsLayout.PutInodeIs` | kernel/fs.c:202-218 | Storing an inode in its block and decoding gives it back, and every other inode of the block is unchanged. |
| `FsState.Attach` | kernel/fs.c:64-87 | Giving a free block to an empty slot keeps the ownership invariant: every block in use has exactly one slot of one inode and its bitmap bit set, and every other data block has its bit clear. |
| `FsState.Detach` | kernel/fs.c:90-104 | Taking a block from its slot and clearing its bit keeps the ownership invariant. |
| `FsFiles.GrowAddr` | kernel/fs.c:362-373 | Allocating a direct or indirect block for an inode keeps the invariant and changes no byte of any file. |
| `FsFiles.GrowEntry` | kernel/fs.c:375-391 | Allocating a data block through the indirect block keeps the invariant and changes no byte of any file. |
| `FsFiles.DataWrite` | kernel/fs.c:491-505 | Writing a data block of one file changes the bytes of that block of that file and no other byte of any file. |
| `FsOps.FileSystem.constructor` | kernel/fs.c:41-46 | A good file system starts with an empty history that explains it. |
| `FsOps.FileSystem.FindFree` | kernel/fs.c:64-87 | The two nested loops over the bitmap find the first block whose bit is clear, or none if and only if the disk is full. |
| `FsOps.FileSystem.Balloc` | kernel/fs.c:64-87 | Returns a block that was free, zeroed, with its bit set and no other bit changed; 0 exactly when the disk is full. |
| `FsOps.FileSystem.Bfree` | kernel/fs.c:90-104 | Clears the one bit; panics exactly if it was clear. |
| `FsOps.FileSystem.Bmap` | kernel/fs.c:357-396 | Returns the block of a file block, filling at most that slot and the indirect slot; no byte of any file changes; nothing changes at all if the block exists; 0 only when the disk is full. |
| `FsOps.FileSystem.BmapIndirect` | kernel/fs.c:375-391 | The same for the part behind the indirect block, with the blocks it logs. |
| `FsOps.FileSystem.WriteLoop` | kernel/fs.c:489-505 | After tot bytes exactly those bytes of that file have changed, and the blocks logged are bounded by the blocks visited, allocated and the indirect block. It stops early only at a copy that fails, or at a byte whose block is missing while no block is free; no copy before that fails. |
| `FsOps.FileSystem.Writei` | kernel/fs.c:479-512 | Refuses exactly an offset beyond the size or a file too large; otherwise replaces exactly the bytes [off, off+tot), sets the size to the maximum of the old size and off+tot, keeps every file hole-free and every other file unchanged, and leaves disk and inode table in agreement. Fewer bytes than asked for mean that the next copy fails, or that the next byte needs a block and none is free. |
| `FsOps.FileSystem.Iupdate` | kernel/fs.c:202-218 | The new state is the old one with the inode stored in its block, and that block is logged. |
| `FsWrite.UpdatedEffect` | kernel/fs.c:202-218 | Storing an inode: the inode on disk becomes the one in memory; no other inode, pointer, bit or byte of a file changes. |
| `FsOps.FileSystem.Readi` | kernel/fs.c:446-471 | Returns exactly the requested bytes that lie within the file, or -1 if a copy fails, and it fails exactly at the first such copy; on a hole-free file it changes nothing. |
| `FsOps.FileSystem.WriteRead` | kernel/fs.c:446-512 | A readi after a writei at the same offset gives back the bytes written, for every file, offset and content; the write falls short only at a failing copy or for lack of space. |
| `FsOps.FileSystem.Itrunc` | kernel/fs.c:400-428 | Frees exactly the blocks of that inode, those beyond its size included, never frees a free block, leaves every other file as it was and the file empty. |
| `FsTrunc.TruncDone` | kernel/fs.c:400-428 | When every slot has been freed the remaining file system satisfies the invariant, the bits cleared are exactly those of the blocks the inode owned, and no byte of another file has changed. |
| `FsWrite.TenBlocks` | kernel/file.c:152-159 | A chunk of at most 3 blocks' size logs at most MAXOPBLOCKS distinct blocks, even if every allocation hits a different bitmap block, provided an unaligned first block exists. |
| `FsWrite.ChunkFitsOp` | kernel/file.c:153-178 | Every chunk that writei writes for filewrite, at every offset and alignment, stays within MAXOPBLOCKS logged blocks. |
| `FsOps.FileSystem.Filewrite` | kernel/file.c:152-179 | The chunks together write a prefix of the source as one flat write, all of it exactly if the result is n. On a result of -1 the first byte not written is one whose copy fails, one that needs a block while none is free, or the start of a chunk that would make the file too large; no copy of a byte before it fails. The blocks on disk are exactly those before with the log_write calls of its transactions applied in order, each transaction logs at most MAXOPBLOCKS distinct blocks, none of them in the log, and leaves a good file system. |
| `FsOps.FileSystem.OpenTrunc` | kernel/sysfile.c:377-382 | Emptying a file is one such transaction: at most MAXOPBLOCKS distinct blocks, a good file system before and after, every other file unchanged. |
| `FsOps.FileSystem.LogBlock` | kernel/log.c:210-231 | The record of the transaction always explains the blocks: the state at begin_op with the recorded updates applied is the state now. |
| `FsOps.FileSystem.EndOp` | kernel/log.c:142-171 | The finished transaction joins the history, which stays one of small transactions with a good file system between any two. |
| `LogSerial.TxNext` | kernel/log.c:123-231 | Every step of a transaction of at most MAXOPBLOCKS distinct home blocks is possible where it comes (no panic, no wait) and leaves the log, the durable blocks and the current blocks exactly as its position in the transaction says. |
| `LogSerial.SerialRun` | kernel/log.c:123-199 | Any number of transactions, by any processes, one after the other from the boot on, run to the end without a panic or a wait; then what is durable is all their updates applied in order. |
| `LogSerial.SerialCut` | kernel/log.c:123-199 | The same run cut after any step of its last transaction: durable is everything up to it, and it as well exactly if its header write is among the steps. |
| `FsCrash.TransactionsSurviveCrashes` | kernel/log.c:114-199 | A history of file operations run through the log, cut by a crash after any step, with any number of interrupted recoveries and a complete one: the disk holds exactly the state after the last committed operation, a good file system; no hypothesis on the run is left. |
| `LogShared.RunTracked` | kernel/log.c:123-231 | In every state of every run in which operations begin, wait, log blocks and end in any order, but never log the same block while both are under way, what system calls see is the ended operations in the order of their ends, and over them the updates made so far by those under way. |
| `LogShared.SharedCommits` | kernel/log.c:142-199 | A crash in any state of any such run leaves exactly the operations that had ended at the last commit: all of each of them and nothing of any other. |
| `FsCrash.SharedCommitsSurviveCrashes` | kernel/log.c:114-199 | Recorded file operations, interleaved block by block in such a run and sharing commits, cut by a crash in any state, with any number of interrupted recoveries and a complete one: the disk holds exactly the operations that had ended at the last commit, and it is a good file system. |
| `FsCrash.FileSystemSurvivesCrashes` | kernel/log.c:114-121 | For runs with operations interleaved in any way, on common blocks too: if the stored blocks are a good file system whenever no operation is under way, then after a crash in any state, any number of interrupted recoveries and a complete one, they are a good file system again. |
| `MkFs.Builder.constructor` | mkfs/mkfs.c:108-115 | The zeroed image satisfies the builder's invariant. |
| `MkFs.Builder.Ialloc` | mkfs/mkfs.c:220-232 | The next inode is in use with no data; the rest is unchanged. |
| `MkFs.Builder.AppendLoop` | mkfs/mkfs.c:265-291 | The loop appends exactly the data to the one file, taking exactly the missing blocks in line; every other file is unchanged. |
| `MkFs.Builder.Iappend` | mkfs/mkfs.c:252-294 | The file is its old bytes followed by the data; the invariant is kept; exactly the data blocks that were missing, and the indirect block if it was missing and is needed, are taken. |
| `MkFs.Builder.FillBitmap` | mkfs/mkfs.c:234-248 | The bitmap block has exactly the bits of the first `used` blocks set. |
| `MkFs.Builder.Finish` | mkfs/mkfs.c:163-170 | The finished image satisfies the ownership invariant that the kernel starts from; it is hole-free if and only if the root directory did not end at a block boundary before its size was rounded up. |
| `MkFs.SixtyTwoFiles` | mkfs/mkfs.c:117-170 | mkfs on the source's own layout with 62 empty files: the root directory has 64 entries, ends on a block boundary and is rounded up past its last block. |
| `Sv39.LookupAfterSet` | kernel/vm.c:150 | Storing a level-0 entry changes the map of exactly one virtual page of one address space. |
| `Sv39.SetLowTrees` | kernel/vm.c:145-183 | Mapping or unmapping one page, with or without its physical page changing hands, keeps all page tables well-formed and changes one entry of one map. |
| `Sv39.Hook` | kernel/vm.c:83-86 | Putting a cleared page below an invalid entry keeps all page tables well-formed and changes no map. |
| `Sv39.Unhook` | kernel/vm.c:265-276 | Cutting off an empty page-table page keeps all page tables well-formed and changes no map. |
| `VmState.LinksExact` | kernel/kalloc.c:17-24 | Following the links from the head of the free list visits every free page exactly once and no other page. |
| `VmOps.Vm.constructor` | kernel/kalloc.c:26-32 | After boot every whole page of the range is free. |
| `VmOps.Vm.Freerange` | kernel/kalloc.c:34-42 | Exactly the whole pages of the region are freed. |
| `VmOps.Vm.Kfree` | kernel/kalloc.c:44-66 | The page is the new head of the free list; nothing else changes. The source panics exactly where the precondition on the address fails. |
| `VmOps.Vm.Kalloc` | kernel/kalloc.c:68-85 | Returns the head of the list, 0 exactly if no page is free; the page belongs to the kernel and no page table changes. |
| `VmOps.Vm.Walk` | kernel/vm.c:70-90 | Returns the level-0 page-table page and index of the address in the tree. With alloc it adds exactly the table pages that are missing on the way and takes as many free pages, changes no map, and fails exactly if there are fewer free pages than that; without alloc it changes nothing and fails exactly if a level is missing. |
| `VmOps.Vm.Walkaddr` | kernel/vm.c:92-113 | The physical page of the address if the user may access it, 0 otherwise, also beyond MAXVA. |
| `VmOps.Vm.Mappages` | kernel/vm.c:125-157 | The first `done` pages of the range, all of them on success, have got their entries, and no other entry of any address space has changed even where levels were added. It succeeds exactly if there is a free page for each table page that the range lacks, and takes exactly these. |
| `VmCost.LackingIs` | kernel/vm.c:70-90 | The table pages that a virtual page of a range lacks, once the pages before it are mapped, are those that the tree lacked at first and that no page before it in the range needs: a table page of level 0 serves 512 neighbours, one of level 1 serves 512 times 512. |
| `VmCost.LackingWalk` | kernel/vm.c:70-90 | The table pages that are counted as missing on the way to a virtual page are exactly the levels at which a walk of the memory finds no valid entry. |
| `VmCost.TablesBound` | kernel/vm.c:70-90 | A range of n pages never needs more than 2n table pages. |
| `VmOps.Vm.AddPage` | kernel/vm.c:224-235 | One page more: succeeds exactly if there is a free page for it and for each table page on the way that is missing, so always with three free pages, and takes exactly these. On failure no map has changed and the page is free again. |
| `VmOps.Vm.Uvmunmap` | kernel/vm.c:159-184 | The range is unmapped, every other entry of every address space is unchanged, and with do_free exactly the pages of the range are free, once each. |
| `VmOps.Vm.Uvmcreate` | kernel/vm.c:186-197 | An empty address space on a page that was free; no other map changes; 0 exactly if no page is free. |
| `VmOps.Vm.Uvmalloc` | kernel/vm.c:214-239 | Succeeds exactly if there are free pages for the new pages and for the table pages that the range lacks, in particular whenever there are three per new page, and takes exactly these. On success every page between the rounded old size and the new size is a zeroed page that was free, with the permissions asked for; on failure every address space is as before and all user memory taken is free again. |
| `VmOps.Vm.Uvmdealloc` | kernel/vm.c:241-257 | Exactly the pages between the rounded sizes are unmapped and free. |
| `VmOps.Vm.Freewalk` | kernel/vm.c:259-277 | Exactly the page-table pages at and below the page are free, and no panic is reached if no leaf is left; the tables are well-formed once the caller has cleared its entry. |
| `VmOps.Vm.Uvmfree` | kernel/vm.c:279-286 | Every page of the address space, table or memory, is free, and no page of any other has changed its use or its map. |
| `VmOps.Vm.Uvmcopy` | kernel/vm.c:288-320 | Succeeds exactly if there are free pages for the copies and for the table pages that the child lacks, in particular whenever there are three per page, and takes exactly these. On success every page below the size is a page that was free, with the parent's bytes and flags; on failure every address space is as before and all user memory taken is free again. |
| `VmGrow.CopiesEqual` | kernel/vm.c:288-320 | After a successful copy both address spaces have equal bytes and flags on different physical pages, and the parent's are unchanged. |
| `VmGrow.GrownUndone` | kernel/vm.c:226-236 | Unmapping what was added restores every map and leaves at most new page-table pages. |
| `VmOps.Vm.Copyout` | kernel/vm.c:335-363 | Exactly the first `done` bytes are copied and no other byte of any address space changes; it succeeds if and only if every byte of the range is mapped, user-accessible and writable. |
| `VmOps.Vm.Copyin` | kernel/vm.c:365-388 | Succeeds if and only if every byte of the range is user-accessible, and then returns the bytes of the address space; it changes nothing. |
| `VmOps.Vm.CopyRoundTrip` | kernel/vm.c:335-388 | A successful copyout followed by copyin of the same range returns the same bytes. |
| `VmOps.Vm.AllocWrite` | kernel/vm.c:214-239 | Memory that uvmalloc has added reads as zeros, and copyout to it works exactly if the permissions asked for contain the write bit. |
| `HeapRing.Follow` | user/umalloc.c:30-32 | Following a link of the ring comes nearer to any given node and skips none; the ring is in address order with one wrap. |
| `HeapRing.NeverAdjacent` | user/umalloc.c:33-42 | No free block ends where another begins. |
| `Umalloc.Shape` | user/umalloc.c:24-44 | Any two blocks, free or live, are disjoint, two free blocks do not touch, and every unit of the heap is in exactly one block. |
| `Umalloc.FreeSound` | user/umalloc.c:33-43 | Putting a block back behind its predecessor and merging with both neighbours keeps the ring ordered, the blocks a division of the heap, and no free blocks adjacent. |
| `HeapOps.Heap.Locate` | user/umalloc.c:30-32 | The search of free terminates at the one place where the block belongs. |
| `HeapOps.Heap.Free` | user/umalloc.c:24-44 | The block is part of a free block, no unit is gained or lost, and no unit of a live block has changed. |
| `HeapOps.Heap.Morecore` | user/umalloc.c:46-61 | At least 4096 new units belong to the heap, in the free block at or after freep; 0 exactly if sbrk fails, and then nothing changes. |
| `HeapOps.Heap.Carve` | user/umalloc.c:75-85 | The block found is handed out whole, or its last units are; no unit is gained or lost. |
| `HeapOps.Heap.Malloc` | user/umalloc.c:63-90 | Calls morecore at most once, exactly when no free block is large enough; returns 0 exactly if sbrk then fails; otherwise a block of exactly the units needed that was no live block before, with all live blocks untouched. It terminates. |
| `ShellGrammar.ParsePrinted` | user/sh.c:365-472 | Parsing the tokens of any printed command tree, with at most 9 arguments each and parentheses where needed, gives the same tree. |
| `ShellLex.RoundTrip` | user/sh.c:283-472 | The same for lines of characters: for every tree whose words are free of separators, parsing its text gives that tree. |
| `ShellLex.LineText` | user/sh.c:365-381 | Parsing positions and parsing the words found there agree for every line, and every word of the tree is a maximal word of the line. |
| `ShellText.ParsesGrammar` | user/sh.c:347-472 | The parser as a function accepts exactly the token sequences of a grammar that is stated without it, and gives their tree: commands of at most 9 words with redirections anywhere, or blocks with redirections after them, joined to pipes, each pipe followed by any number of ampersands, joined by semicolons. |
| `ShellText.Unambiguous` | user/sh.c:347-472 | No token sequence has two trees. |
| `ShellText.SimpleExec` | user/sh.c:397-472 | For words and redirections in any order: the redirections in order around the words that are no file names in order, or an error exactly if these are more than 9. |
| `ShellText.Rejected` | user/sh.c:403-467 | A line is rejected if parentheses do not match in number, if a redirection has no file name, or if a command anywhere has more than 9 words. |
| `ShellSpacing.Tokenized` | user/sh.c:283-327 | The tokens of a line are the only ones it can be split into: words up to the next blank or symbol, symbols, and >> where two > are adjacent, with nothing but blanks between them. |
| `ShellSpacing.Accepts` | user/sh.c:347-363 | The shell accepts a line exactly if its tokens are of the grammar, and then it builds their tree. |
| `Shell.Parser.Gettoken` | user/sh.c:283-327 | Returns the first token of the rest of the line and leaves the others; at the end of the line it returns 0 and stays. |
| `Shell.Parser.Peek` | user/sh.c:329-340 | True exactly if the next token starts with one of the symbols; no token is consumed. |
| `Shell.Parser.Parseredirs` | user/sh.c:397-421 | The tree and the rest that the grammar gives, or a panic exactly where the grammar has an error. |
| `Shell.Parser.Parseblock` | user/sh.c:423-438 | The tree and the rest that the grammar gives for a block, or a panic exactly where it has an error. |
| `Shell.Parser.Parseexec` | user/sh.c:440-472 | The tree and the rest that the grammar gives for a simple command or block, a panic exactly where it has an error. For words and redirections in any order: the redirections in order around all words that are no file names in order, a panic exactly if these are more than 9. |
| `Shell.Parser.Parsepipe` | user/sh.c:383-395 | The tree and the rest that the grammar gives for a pipe; it terminates. |
| `Shell.Parser.Parseline` | user/sh.c:365-381 | The tree and the rest that the grammar gives for a line; it terminates on every line. |
| `Shell.Nulterminate` | user/sh.c:474-520 | Exactly the ends of the words of the tree are overwritten with NUL. |
| `Shell.Terminated` | user/sh.c:474-520 | No NUL lands inside a word: every argument and file name, read up to the first NUL, is its token. |
| `Shell.Parsecmd` | user/sh.c:347-363 | For every split of the line into tokens: succeeds exactly if the tokens form a line of the grammar, and then the tree is that of the grammar; otherwise it panics. Every word reads as its token in the buffer. |
| `VirtQueue.IndexApart` | kernel/virtio_disk.c:296 | The free-running 16-bit indices differ exactly when an entry is waiting, across wrap-around. |
| `VirtQueue.QueueFits` | kernel/virtio_disk.c:296-308 | The entries waiting in a ring are never more than the requests in flight. |
| `VirtioDisk.Disk.AllocDesc` | kernel/virtio_disk.c:143-154 | Takes one free descriptor; -1 exactly if none is free. |
| `VirtioDisk.Disk.Alloc3Desc` | kernel/virtio_disk.c:187-201 | Takes three different free descriptors, or fails because fewer than three are free, with table and free list exactly as before. |
| `VirtioDisk.Disk.FreeChain` | kernel/virtio_disk.c:172-185 | Frees exactly the three descriptors of the chain and clears them; no panic is reached. |
| `VirtioDisk.Disk.Submit` | kernel/virtio_disk.c:203-274 | Succeeds exactly if three descriptors are free. Then a new request with its own three descriptors, set out as section 5.2 of Virtio 1.1 asks, is in the avail ring and its buffer is marked; otherwise nothing has changed. |
| `VirtioDisk.Disk.DeviceFetch` | kernel/virtio_disk.c:259-265 | What the device reads from the avail ring is a request not read before, for the buffer that the caller gave, 1024 bytes from byte 1024 * blockno of the disk, which the device writes to the buffer exactly for a read request. |
| `VirtQueue.SectorsApart` | kernel/virtio_disk.c:207 | The 512-byte sectors named for a block belong to that block and to no other. |
| `VirtioDisk.Disk.DeviceComplete` | kernel/virtio_disk.c:294-298 | Requests may complete in any order; the used ring never overruns. |
| `VirtioDisk.Disk.IntrOne` | kernel/virtio_disk.c:296-308 | One completed request clears the flag of its own buffer, once, and no other flag; the status panic is not reached. |
| `VirtioDisk.Disk.Intr` | kernel/virtio_disk.c:282-311 | All completed requests are done and no other request is touched; the loop terminates across index wrap-around. |
| `VirtioDisk.Disk.Finish` | kernel/virtio_disk.c:271-280 | Exactly the three descriptors of the request are free again. |
| `SleepWakeup.RunInv` | kernel/proc.c:526-570 | The invariant of sleep, wakeup and their locks holds in every state of every interleaving of any number of processes, locks and channels, kill included; what a process does under a lock is its own choice. |
| `SleepWakeup.WakeupReachesAll` | kernel/proc.c:526-570 | In every run: when a process that calls wakeup(c) under lk gives lk up, by release or by sleeping itself, nobody else who had called sleep(c, lk) is still in it. |
| `SleepWakeup.NoLostWakeup` | kernel/proc.c:526-570 | The monitor theorem, for any condition on the data that lk protects and any channels: if processes sleep on a channel only while its condition makes them wait, and wake every channel that they unblock before they give lk up, then whenever lk is free everybody asleep on a channel still has to wait. |
| `SleepWakeup.OtherWaits` | kernel/proc.c:526-570 | What a step of one process means for another that is asleep: its condition made it wait when the lock was last acquired, and still does when the lock is free. |
| `SleepLock.HistoryIsMonitored` | kernel/sleeplock.c:23-53 | Every interleaving of acquiresleep and releasesleep on any number of sleep locks is a run that obeys the discipline of the monitor theorem. |
| `SleepLock.MutualExclusion` | kernel/sleeplock.c:23-53 | In every run at most one process has a sleep lock, and it is marked taken exactly when one has it. |
| `SleepLock.FreeLockHasNoSleepers` | kernel/sleeplock.c:23-53 | In every run, whenever the spin lock is free and the sleep lock is not taken, no process sleeps on it or is about to. |
| `SleepLock.SleeperHasWaker` | kernel/sleeplock.c:23-53 | In every run a process that sleeps on a sleep lock, or is on its way to, has another process that has the lock, or that is releasing it, holds the spin lock and has yet to come to it. |
| `PipeSleep.ObeysExactly` | kernel/pipe.c:60-135 | Every step of every reader, writer and closer of any number of pipes obeys the discipline, except exactly one: a killed writer that returns after it has put bytes into a pipe that was empty when it took the lock. |
| `PipeSleep.NoReaderOrWriterForgotten` | kernel/pipe.c:60-135 | In every run without such a return: whenever a pipe's lock is free, readers sleep only if it is empty and open for writing, and writers only if it is full and open for reading. |
| `PipeSleep.ForgottenExactly` | kernel/pipe.c:86-104 | In any run that has been so until now, a step leaves a reader asleep on a pipe with bytes and a free lock if and only if it is such a return and that reader sleeps on that pipe. |
| `PipeSleep.KilledWriterForgetsReader` | kernel/pipe.c:86-104 | A run of two processes that ends so: the reader sleeps, a byte is in the pipe, both ends are open, the lock is free and nobody else is in a pipe operation. |
| `ProcState.OnOneCpu` | kernel/proc.c:429-464 | A running process is current on exactly one CPU. |
| `ProcOps.Kernel.constructor` | kernel/proc.c:225-248 | The table with the first process satisfies the invariant. |
| `ProcOps.Kernel.Wakeup` | kernel/proc.c:554-570 | Exactly the processes asleep on the channel, other than the caller, become runnable; nothing else changes. |
| `ProcOps.Kernel.Reparent` | kernel/proc.c:321-334 | Exactly the children of the process have the first process as parent, which is awake if there were any. |
| `ProcOps.Kernel.Allocproc` | kernel/proc.c:103-148 | The first unused slot has a pid that no process ever had; -1 exactly if there is no slot or no memory, and then the table is as before, but for the failed slot, which is cleared. |
| `ProcOps.Kernel.ForkParent` | kernel/proc.c:310-312 | The child has a parent that can wait for it. |
| `ProcOps.Kernel.ForkReady` | kernel/proc.c:314-316 | Only a child with a parent becomes runnable. |
| `ProcOps.Kernel.ForkFail` | kernel/proc.c:285-289 | The slot is unused again. |
| `ProcOps.Kernel.Leave` | kernel/proc.c:492-501 | The process has left the running state and still has its CPU and its own lock. |
| `ProcOps.Kernel.Switched` | kernel/proc.c:455-461 | The CPU is idle and the lock free; every running process is still on exactly one CPU. |
| `ProcOps.Kernel.Dispatch` | kernel/proc.c:447-455 | A runnable process runs on one CPU that was idle; no process is on two. |
| `ProcOps.Kernel.Exit` | kernel/proc.c:336-378 | The process is a zombie that keeps pid, status and a living parent, its parent is not asleep in wait, and its children belong to the first process. Awake are exactly its parent and, if it had children, the first process, as far as they slept in wait; nothing else has changed. Every parent pointer still names a process that is neither unused nor a zombie. |
| `ProcOps.Kernel.Wait` | kernel/proc.c:380-427 | Sleeps exactly if there is a child, the caller is not killed, and no child is a zombie or has its lock held. If some child is one of these, the first such child decides: if its lock is held wait spins, and if it is an unlocked zombie it is collected exactly if its status can be copied out. Without such a child wait fails only if there is no child or the caller is killed. A zombie is collected only by its current parent, only after it has left its CPU, with its pid and exit status, and no pid is collected twice. |
| `ProcOps.Kernel.Kill` | kernel/proc.c:572-594 | Marks the first slot with that pid, and a process asleep there is runnable; the slot holds a process if and only if the pid is not 0, and then it is the only one with that pid. |
| `ProcOps.KilledAtBirth` | kernel/proc.c:103-148 | In every state with a free slot, kill with pid 0 followed by allocproc gives a process that starts out killed. |
| `ProcOps.KilledAtBoot` | kernel/proc.c:572-594 | The table after userinit is such a state. |
| `BufList.Unlink` | kernel/bio.c:127-128 | Taking a buffer out leaves a list of the others in order, in both directions. |
| `BufList.PushFront` | kernel/bio.c:129-132 | Putting a buffer in front leaves it before all others, in both directions. |
| `Bio.Cache.constructor` | kernel/bio.c:34-52 | The list holds every buffer exactly once in both directions, in the order of use. |
| `Bio.Cache.FindCached` | kernel/bio.c:64-72 | Finds the buffer of the block; if it finds none, no buffer holds the block. |
| `Bio.Cache.FindUnused` | kernel/bio.c:74-86 | Finds the buffer that has been unused for the longest time since brelse gave it up; if it finds none, all are in use. |
| `Bio.Cache.Bget` | kernel/bio.c:54-88 | Returns the one buffer of the block, or recycles the idle one whose last user gave it up before those of all other idle ones; panics exactly if there is neither; no two buffers ever hold the same block, and the content of no block changes. |
| `Bio.Cache.Fill` | kernel/bio.c:90-102 | The buffer holds the current content of the block. |
| `Bio.Cache.Change` | kernel/log.c:201-209 | Changing a locked buffer changes the content of its block and of no other. |
| `Bio.Cache.Bwrite` | kernel/bio.c:104-111 | The disk has the buffer's data for that block; no content changes. |
| `Bio.Cache.Brelse` | kernel/bio.c:113-136 | When the last user gives the buffer up it moves to the front, as the most recent of all, and the others keep their order and times; otherwise nothing moves. The content of no block changes. |
| `Bio.Cache.Bpin` | kernel/bio.c:138-144 | One reference more; nothing else changes. |
| `Bio.Cache.Bunpin` | kernel/bio.c:146-152 | One reference less; a buffer without references is clean. |
| `LinkState.CountIsExact` | kernel/sysfile.c:130-314 | The link count of an inode is the number of entries other than "." that name it, in directories still linked, if and only if that number is at most 32767; it is 0 if and only if the number is a multiple of 65536, and below 1 if and only if the number modulo 65536 is 0 or at least 32768. |
| `LinkState.Reachable` | kernel/fs.c:628-668 | Every linked directory is at the end of a path of names from the root. |
| `LinkState.OneParent` | kernel/sysfile.c:255-314 | What a linked directory contains is in use; a directory is contained in one place only. |
| `LinkState.LinkedUnique` | kernel/fs.c:628-668 | Which directories are linked is decided by the table. |
| `LinkState.LinkedSeen` | kernel/fs.c:628-668 | A directory is linked if and only if an entry names it; a link count other than 0 means that it is linked, and up to 65535 names the converse holds. |
| `LinkState.EmptyRefs` | kernel/sysfile.c:180-194 | A directory without entries of its own is named by its entry in its parent only. |
| `Links.FileTree.constructor` | mkfs/mkfs.c:117-128 | The image with the root directory satisfies the invariant. |
| `Links.FileTree.Dirlookup` | kernel/fs.c:523-549 | Finds the first entry of that name, and none exactly if there is none. |
| `Links.FileTree.Dirlink` | kernel/fs.c:551-580 | Succeeds exactly if the name is new and there is an empty entry or space for one; then it writes one entry, into the first empty one or at the end, and otherwise nothing. |
| `Links.FileTree.IsDirEmpty` | kernel/sysfile.c:180-194 | True exactly if all entries but the first two are empty. |
| `Links.FileTree.Ialloc` | kernel/sysfile.c:277-280 | The first free inode, which no entry names, is in use; 0 exactly if none is free. |
| `Links.FileTree.Link` | kernel/sysfile.c:130-178 | Succeeds exactly for a file or device when the parent directory exists, the name is new there, and there is an empty entry or space for one; panics exactly on a free inode. After success there is one entry and one link more, and every link count is right if and only if the parent directory is linked; every failure restores the inode exactly. |
| `Links.FileTree.Unlink` | kernel/sysfile.c:196-253 | Panics if and only if the name is there, is neither . nor .., and the link count of its inode has run over; succeeds if and only if the name is there, is neither, the count has not, and the inode is no directory with further entries. After success the entry is empty and every link count is right, those of parent and child directory included; otherwise nothing changes. |
| `Links.FileTree.Create` | kernel/sysfile.c:255-314 | Creates if and only if the name is new in the parent directory, some inode is free, and there is space for all entries; finds an inode if and only if a file is asked for and the name stands for a file or a device, so that mkdir and mknod refuse every name in use; panics if and only if the name stands for a free inode. The first free inode has its first link and its name, a directory its two entries too, and every link count is right if and only if the parent directory is linked; otherwise nothing changes. |
| `Links.FileTree.Reclaim` | kernel/fs.c:306-338 | An inode is freed exactly if the number of entries that name it is a multiple of 65536; the file tree is intact afterwards if and only if that number is 0 or the inode is not freed. |
| `LinkRuns.NegativeCount` | kernel/sysfile.c:130-178 | Calls from the empty image to a file with 32768 names, in directories no larger than a file can be, whose link count is -32768; unlink of one of them panics. |
| `LinkRuns.FreedWhileNamed` | kernel/fs.c:306-338 | Calls from the empty image to a file with 65536 names that iput frees although all of them still name it. |
| `LinkRuns.CreatedInRemoved` | kernel/fs.c:628-668 | A file created in the removed current directory of a process has a link, and no linked directory names it. |
| `LinkRuns.ParentGone` | kernel/fs.c:266-294 | Creating ".." in a removed directory whose parent has been freed, or linking to it, panics in ilock. |
| `PipeRing.Counters` | kernel/pipe.c:92-118 | The wrapping 32-bit counters tell empty and full apart, whatever the number of bytes ever written. |
| `PipeRing.Pipe.Write` | kernel/pipe.c:79-107 | Exactly the bytes copied are appended to those stored, the fill level stays within PIPESIZE; it stops only when all bytes are written, at the byte whose copy fails, or, to sleep, when the pipe is full, and it fails exactly if the reader is gone or the writer killed. |
| `PipeRing.Pipe.Read` | kernel/pipe.c:109-135 | The bytes delivered are the oldest stored ones in order, fewer than asked for only if the pipe is drained or a copy fails; on an empty pipe whose write end is open it fails exactly if the reader is killed and otherwise sleeps; with no failing copy, a positive read of 0 bytes means that the write end is closed and the pipe drained. |
| `PipeRing.Pipe.Close` | kernel/pipe.c:60-77 | Closes one end; the pipe is freed exactly when both are closed. |
| `Grep.HereStar` | user/grep.c:98-106 | A starred character stands for any number of fitting characters before the rest of the pattern. |
| `Grep.Matchhere` | user/grep.c:84-96 | True exactly if a prefix of the text is one that the pattern stands for, the whole text before "$". |
| `Grep.Matchstar` | user/grep.c:98-106 | True exactly if after some number of fitting characters the rest of the pattern matches. |
| `Grep.Match` | user/grep.c:72-82 | For every pattern and text, true exactly if some substring is one that the pattern stands for, with "^" and "$" at the ends; it terminates. |

## Left out

- LogDevice.Log.ReadHead: a header with a count above LOGSIZE, which the source copies past the end of its array.
- MkFs.Builder.Iappend: an image without room for the blocks that are missing, which mkfs does not notice.
- LogDevice.Log.BeginOp, `EndOp`: the spin lock and sleeping are atomic steps; the wait loop is one test per step.
- FsOps.FileSystem.Writei, `Readi`: each per-block copy from or to the user succeeds as a whole or fails as a whole; a
  failing copy that leaves part of a block changed is not modelled. Which copies fail is a parameter.
- FsOps.FileSystem.Filewrite: file descriptors, devices and pipes behind the same call, and other processes between
  two chunks.
- FsOps.FileSystem.Balloc: allocation within one transaction; a file operation runs without others in between.
- FsOps.FileSystem.OpenTrunc: only the truncation of `open`. It needs a disk of at most nine bitmap blocks (the source's
  has one): a larger bitmap could make a truncation log more blocks than an operation may.
- FsCrash.SharedCommitsSurviveCrashes: operations under way at the same time log no common block; two that allocate blocks
  do share a bitmap block. For those, `FileSystemSurvivesCrashes` takes as a hypothesis that they keep the invariant of
  the file system whenever none is under way.
- VmOps.Vm.Mappages, `Uvmunmap`, `Uvmcopy`, `Freewalk`: the source's panics are preconditions (a remapped page, a
  missing page, a leaf left behind).
- VmOps.Vm.Kfree: the junk that fills a free page is not modelled, only the link in it.
- VmOps.Vm.Copyin: copyinstr, uvmclear, uvmfirst and the kernel's own page table are not modelled.
- HeapOps.Heap.Malloc: sizes are unbounded integers; sbrk returns memory above all earlier memory, and the request in
  bytes fits an int.
- VirtioDisk.Disk.DeviceComplete: the device completes every request with status 0; memory barriers are not modelled.
- ProcOps.Kernel.Wait: waiting for the lock of a child that is leaving its CPU is the outcome `Spins`; memory, files and
  the trap frame of a process are not part of the table; pids do not wrap.
- ProcOps.Kernel.Wakeup: the lock of each process is taken for one step; the finer grain is that of `SleepWakeup`.
- Bio.Cache.Brelse, `Bunpin`: that callers write or log every change before the last reference goes is a precondition.
- Links.FileTree.Link, `Unlink`, `Create`: path names are already resolved and at most DIRSIZ long; one call runs without
  others in between; the iput calls at their end are the separate method `Reclaim`, called for the last reference; a
  full directory file is the same as a full disk; the inode table is not joined to the blocks of `FsOps` and the log.
- PipeRing.Pipe.Write, `Read`: wakeups are not part of the pipe's state; `PipeSleep` has them, with the number of bytes in
  place of the bytes.
- PipeSleep.NoReaderOrWriterForgotten: a pipe is not freed when both ends are closed, and closing an end does not exclude
  further calls on it.
- Tables of fixed size (descriptors, buffers, processes, free flags) are sequences that methods reassign, not arrays.
- The superblock, the inode cache with its reference counts (iget, iput beyond `Reclaim`), path lookup and file
  descriptors: they would add bookkeeping of the same kind as the process table and the buffer cache.
- exec, traps, context switches, boot, the console, devices other than the disk, and the system-call dispatch.
- Fairness and progress of the scheduler: what is proved is safety.
