# A verified model of the xv6 kernel and its shell, allocator and grep

This project models the parts of xv6 that are easiest to get wrong, and proves what they are for:
that a crash never leaves half a transaction, that no disk block or page has two owners, that no wakeup is
lost, that what is written is what is read. It is Dafny throughout; `dafny verify dfyconfig.toml` checks all of it.

Code that changes state is a class or a method over arrays, with the loops of the original; each of these is proved
against functions on plain values, and the properties are lemmas about those functions. Concurrent code is a
protocol: a state, one action per critical section, and theorems over every run of any number of threads, CPUs or processes.

| component | on values | as it runs | over all runs |
|---|---|---|---|
| write-ahead log (log.c) | LogSpec | Log | LogProtocol |
| buffer cache (bio.c) | BioSpec | Bio | BioProtocol |
| blocks, inodes, files (fs.c, file.c) | FsLayout, FsSpec, FsFile, FsHole | FileSystem | |
| log space of the calls (fs.c, file.c, sysfile.c) | FsLogged, FsBudget, FsCalls, FsWide, FsSpread | | |
| directories and paths (fs.c) | DirSpec, DirFile, PathSpec | Namei | |
| link counts (sysfile.c, fs.c) | | | LinkProtocol |
| processes (proc.c) | ProcTable | Proc | ProcProtocol |
| sleep-locks (sleeplock.c, proc.c) | | | SleepLock |
| pipes (pipe.c) | PipeSpec | Pipe | PipeProtocol |
| pages and address spaces (kalloc.c, vm.c) | VmSpec | Vm, VmCopy, VmUser | VmSystem |
| user heap (umalloc.c) | HeapSpec | Umalloc | |
| shell parser (sh.c) | ShellSpec, ShellRoundTrip, ShellTerminate | Shell | |
| grep (grep.c) | Grep | Grep, GrepLoop | |

Blocks holds the bytes and words of a disk block, Basics what several modules need. The sources are cited from Project2; Project3 holds the same text of these files.

## What the code does that its documentation does not say

- mkfs.c:25 makes the log LOGSIZE blocks long, header included, but log.c:218 needs LOGSIZE + 1 for full reservations. The theorems about the log therefore assume log.size > LOGSIZE, and `SmallLogPanics` shows that the condition is needed. log.c:218 also looks for room before it looks for absorption (`FullLogPanicsOnAbsorption`).
- fs.c:506 writes the inode only if the file grew. A write into a hole below the end, which mkfs.c:161 leaves in a root directory of exactly one full block, allocates a block that the disk inode never points to (`WriteiSync`, `HoleWriteNotLogged`); once the inode is read from disk again the data is gone and the block is leaked (`HoleWriteLost`, `HoleWriteLeaks`).
- fs.c:470 allocates as well, when a read meets a hole (`ReadiQuietExactly`), and so logs blocks, exactly then (`ReadiLogsExactly`); `HoleReadLogs` reads the root directory of above. file.c:107 reads outside of any transaction, where log.c:220 panics, unless another call has one open, in which the block is then logged.
- file.c:133 cuts writes into chunks that log at most MAXOPBLOCKS blocks if the file has no hole, on a disk of any size; `TenIsReached` gives a disk on which all of them are needed. For a file with holes, which these system calls never make, a chunk can log one block more: `ChunkFitsReservation` says when, and `ElevenIsReached` gives a disk. iput's truncation has no such bound: on a disk of more than nine bitmap blocks it can exceed the reservation (`ItruncFits` says exactly when, `ItruncOverruns` gives a disk). The same holds of unlink (`UnlinkFits`, `UnlinkOverruns`); link and create always fit.
- pipe.c:86 lets a killed writer return without waking the readers of what it has put in. A reader is left asleep on a full pipe exactly when a killed writer with more than PIPESIZE bytes to go runs while a reader sleeps (`ForgottenExactly`, `KilledWriterLeavesSleeper`).
- proc.c:486 compares pids only. An unused slot has pid 0, or the pid of a fork that failed, which proc.c:196 leaves in place; for exactly these pids kill reports success without reaching a process (`KillReaches`, `KillZeroMarksUnused`).
- proc.c:169 takes a new size of 0 for a failure, although the pages are gone; a shrink below zero is a success that does nothing (`Growproc`). The size that is left standing is the only way to a page below the size that is not mapped, which copyuvm would panic on (`Machine.Run`).
- param.h:11-12 gives the buffer cache as many buffers as a full log pins. bget panics if every buffer is pinned or in use (`TooFewBuffers`; `EnoughBuffers` says that it needs as many): once the log has 29 of the 30, two processes at blocks that are not cached are enough.
- fs.c:645 follows the ".." of a directory that has been unlinked but is still in use. Its parent may be freed meanwhile, and then fs.c:310 panics, or the inode is something else by then (`UpIsFree`, `UpLostExactly`).
- umalloc.c:69 wraps for sizes above 2^32 - 8, and umalloc.c:54 asks sbrk for nothing or for less than nothing for sizes between 2^31 - 16 and that (`UnitsSuffice`, `SbrkGetsTheSize`).
- grep.c:29 throws a buffer without a newline away, so a line that arrives in two reads can lose its start (`ExaminedExactly`, `ShortReadLoses`).
- sysfile.c:285 and sysfile.c:155 can enter a name into a directory that has been unlinked but is still in use; it goes away with the directory without a decrement. So nlink is the number of names plus that of the names lost this way (`LinksCountEntries`, `LostWithDirectory`), and a file can keep a link that no entry accounts for and never be freed (`LinkIsLost`).

## Model

| member | source | states |
|---|---|---|
| LogSpec.HeadRoundTrip | Project2/sysCall/src/log.c:85-113 | a header written by write_head is read back by read_head as the same list of block numbers |
| LogSpec.CrashAtomicity | Project2/sysCall/src/log.c:68-122 | for a crash after any of the 2n + 2 block writes of commit, followed by any number of interrupted recoveries and a completed one: the home blocks are all as before if the first header write was not reached, and all as after the transaction if it was |
| LogSpec.RepeatedRecovery | Project2/sysCall/src/log.c:115-122 | recovery may be cut off after any block write, any number of times; when it completes, the home blocks are those of the durable state |
| LogSpec.RecoveryAlwaysCompletes | Project2/sysCall/src/log.c:115-122 | from every disk that stands for a durable state, with or without a committed transaction in the log, recovery leads to a recovered disk |
| LogSpec.CommitTraceAt | Project2/sysCall/src/log.c:192-202 | the disks that commit leaves behind, write by write, are exactly the ones at which CrashAtomicity lets it crash |
| LogSpec.RecoveryTraceAt | Project2/sysCall/src/log.c:115-122 | likewise for recovery: its disks, write by write, are those at which RepeatedRecovery cuts it off |
| Log.Log.Bread | Project2/sysCall/src/bio.c:97-106 | the block as the cache shows it: the modified copy if there is one, else the disk's |
| Log.Log.Bwrite | Project2/sysCall/src/bio.c:110-116 | the block is on disk, its buffer is no longer marked, and the write is one point of the trace |
| Log.Log.TryBeginOp | Project2/sysCall/src/log.c:126-141 | one pass of begin_op's loop takes the step BeginOp of LogProtocol exactly if Admits, the guard of that step, holds, and otherwise WaitOp; afterwards every open operation has its MAXOPBLOCKS blocks left in the log |
| Log.Log.LogWrite | Project2/sysCall/src/log.c:213-233 | it panics exactly if the log is full before absorption is looked for, or outside an operation; otherwise the block number is in the header exactly once and the file system sees the new contents |
| Log.Log.LeaveOp | Project2/sysCall/src/log.c:146-163 | end_op's critical section in the terms of LogProtocol's EndOp: the count drops, the last to leave commits and nobody else, and the sleepers in begin_op are woken exactly if it does not; a panic exactly if a commit is running |
| Log.Log.WriteLog | Project2/sysCall/src/log.c:177-190 | every logged block is copied to its slot in the log area, one block write at a time, and nothing else changes |
| Log.Log.WriteHead | Project2/sysCall/src/log.c:101-113 | the header block lists the logged blocks, in one write |
| Log.Log.InstallTrans | Project2/sysCall/src/log.c:69-82 | every logged block is copied from the log to its home, in order, and its buffer is no longer marked |
| Log.Log.Commit | Project2/sysCall/src/log.c:192-202 | afterwards the home blocks on disk are what the file system saw before, the log is empty in memory and on disk, and the writes in between are those of CommitTrace |
| Log.Log.ReadHead | Project2/sysCall/src/log.c:85-96 | the in-memory header becomes the list in the header block; a negative count reads as an empty list |
| Log.Log.RecoverFromLog | Project2/sysCall/src/log.c:115-122 | the disk is the recovered one, the log is empty, and the writes in between are those of RecoveryTrace |
| LogProtocol.ReachableInv | Project2/sysCall/src/log.c:126-202 | in every interleaving of operations, commits, crashes and recoveries: n plus the unused part of each open operation is at most LOGSIZE, logged numbers are distinct, committing implies that no operation is open, and the disk stands for the durable prefix of the history |
| LogProtocol.CrashSafety | Project2/sysCall/src/log.c:126-202 | after a crash at any reachable state, and any interrupted recoveries, the home blocks are the replay of a prefix of everything that was written, cut where no system call was open |
| LogProtocol.DurablePrefixGrows | Project2/sysCall/src/log.c:146-202 | no step takes back what is durable, and when the durable prefix grows it grows to everything written so far, with no operation open |
| LogProtocol.ReadsSeeAllWrites | Project2/sysCall/src/log.c:213-233 | between commits the cache over the disk shows every write of the history |
| LogProtocol.AppendFits | Project2/sysCall/src/log.c:213-219 | with log.size > LOGSIZE, a log_write that appends a block within the operation's budget finds n < LOGSIZE and does not panic |
| LogProtocol.EndOpNeverPanics | Project2/sysCall/src/log.c:146-174 | end_op never meets a running commit, and the commit that it starts begins with no operation open |
| LogProtocol.WaitersHaveReason | Project2/sysCall/src/log.c:126-173 | no wakeup is lost in begin_op: in every run a call sleeps there only while a commit is running or the reservations leave no room for one more |
| LogProtocol.FewBlocksFit | Project2/sysCall/src/log.c:126-233 | a call that writes at most MAXOPBLOCKS distinct blocks, as FsBudget counts them, stays within what begin_op reserved: each of its log_writes finds room, whatever the other calls do |
| LogProtocol.CommitNeverStuck | Project2/sysCall/src/log.c:176-202 | a commit that has begun can always do its next block write |
| LogProtocol.SmallLogPanics | Project2/sysCall/src/mkfs.c:25 | with log.size <= LOGSIZE, as mkfs makes it, some run leads an operation within its budget to the "too big a transaction" panic |
| LogProtocol.FullLogPanicsOnAbsorption | Project2/sysCall/src/log.c:218-227 | with LOGSIZE blocks logged, writing one of them again panics although it would not need a slot |
| BioSpec.UnlinkKeepsRing | Project2/sysCall/src/bio.c:132-133 | taking a buffer out of the ring leaves the ring of the others, in both directions and the same order |
| BioSpec.PushKeepsRing | Project2/sysCall/src/bio.c:134-137 | a buffer put in behind the head comes first, and the others follow in their order, in both directions |
| BioSpec.StepKeeps | Project2/sysCall/src/bio.c:97-141 | a step on one buffer that keeps what its block holds keeps the cache's invariant and what every block holds |
| BioSpec.RecycleKeeps | Project2/sysCall/src/bio.c:81-90 | giving an unused clean buffer to another block loses no data and keeps one buffer per block |
| BioSpec.QuietIsOnDisk | Project2/sysCall/src/bio.c:79-82 | with no buffer held and none marked by the log, every block reads as the disk has it |
| Bio.Bcache.constructor | Project2/sysCall/src/bio.c:39-56 | the ring is a permutation of all buffers, and every block reads as the disk has it |
| Bio.Bcache.Bget | Project2/sysCall/src/bio.c:62-93 | a cached block gets its buffer; otherwise, of the buffers with no reference that are not dirty, the one released longest ago is taken; it fails exactly if there is none. No block reads differently afterwards |
| Bio.Bcache.Iderw | Project2/sysCall/src/memide.c:39-60 | a dirty buffer goes to its disk block, an invalid one is read from it |
| Bio.Bcache.Bread | Project2/sysCall/src/bio.c:97-106 | the buffer is held, valid, and has the latest data written to the block, on disk or not; or the process sleeps, with a reference taken and nothing else changed, exactly if another holds the buffer; it fails exactly if the block is not cached and no buffer is usable |
| Bio.Bcache.Modify | Project2/sysCall/src/fs.c:499-502 | a change that the holder of a buffer makes to it changes what its block holds and no other block, and keeps the invariant |
| Bio.Bcache.Bwrite | Project2/sysCall/src/bio.c:110-116 | the disk block equals the buffer, which is no longer dirty |
| Bio.Bcache.Brelse | Project2/sysCall/src/bio.c:121-141 | one reference less; a buffer without references moves to the front and the others keep their order. No block reads differently, and the invariant holds afterwards if and only if the holder has written its changes or given them to the log |
| BioProtocol.RunKeeps | Project2/sysCall/src/bio.c:62-141 | in every interleaving of bread, changes by holders, log_write, bwrite and brelse by any number of processes: a block has one buffer, its reference count is the number of uses of it, its lock has one holder, and the cache over the disk shows the last write to every block unless a buffer was released with changes neither written nor logged |
| BioProtocol.OneBuffer | Project2/sysCall/src/bio.c:62-93 | in every run, two uses of the same block are of the same buffer, a buffer in use is not given to another block, and one process at most works on a block at a time |
| BioProtocol.ReadsLatest | Project2/sysCall/src/bio.c:97-106 | bread returns what was last written to the block, by whatever process |
| BioProtocol.LosesExactly | Project2/sysCall/src/bio.c:79-90 | a step loses the last write to a block if and only if bget takes the buffer of that block for another one while its data differ from the disk and are not marked for the log |
| BioProtocol.QuietIsWritten | Project2/sysCall/src/bio.c:62-141 | in such runs, once nobody holds a buffer and the log has marked none, the disk holds the last write to every block |
| BioProtocol.EnoughBuffers | Project2/sysCall/src/bio.c:79-92 | bget does not panic while there are more buffers than are marked by the log and in use together |
| BioProtocol.TooFewBuffers | Project2/sysCall/src/param.h:11-12 | the bound is tight: for any number of buffers, any number of them marked by the log and a process at work on each of the others, a constructed run leads the next block that is not cached to the panic |
| Blocks.LoadStore | Project2/sysCall/src/log.c:107-110 | a 32-bit word stored in a block is read back, and no other word of it changes |
| FsLayout.WithInodeAt | Project2/sysCall/src/fs.c:221-236 | writing inode i's slot changes the inode read from slot i and no other |
| FsLayout.WithBitAt | Project2/sysCall/src/fs.c:64-69 | setting or clearing a bit of the bitmap changes that block's bit and no other |
| FsLayout.InodeRoundTrip | Project2/sysCall/src/fs.c:221-236 | ilock reads from an inode block what iupdate wrote |
| FsSpec.NoSharing | Project2/sysCall/src/fs.c:57-95 | no two pointers of any inodes, indirect entries included, name the same block |
| FsSpec.FreeIsData | Project2/sysCall/src/fs.c:57-78 | a block whose bit is clear lies behind the metadata and is owned by no inode; so balloc never returns 0 |
| FsSpec.BmapMaps | Project2/sysCall/src/fs.c:373-400 | bmap gives the file block a disk block that no other pointer names, keeps what every file reads, keeps the bitmap equal to metadata plus owned blocks, and panics only with every block in use |
| FsSpec.ItruncFreesAll | Project2/sysCall/src/fs.c:408-435 | itrunc frees each block of the inode exactly once, so bfree's panic is unreachable; the blocks left in use are those of the other inodes, which read as before |
| FsSpec.IupdateSyncs | Project2/sysCall/src/fs.c:221-236 | afterwards this inode agrees with its disk copy, and every other one exactly if it did before |
| FsSpec.Leaks | Project2/sysCall/src/fs.c:288-312 | a block whose pointer is in memory but not on disk stays marked after the inode is read from disk, and nothing points to it |
| FsSpec.ReloadSound | Project2/sysCall/src/fs.c:288-312 | reading an inode whose disk copy has some of its pointers and no others keeps exactly the owned blocks in use if and only if the disk has all of the pointers |
| FsFile.WriteiRefines | Project2/sysCall/src/fs.c:482-511 | writei refuses exactly an offset behind the end or an end beyond the largest file; otherwise, unless blocks run out, the file is the old contents overwritten from off on, other files are as before, and ownership holds |
| FsFile.ReadiRefines | Project2/sysCall/src/fs.c:453-476 | readi refuses exactly an offset behind the end or a wrapping length; otherwise it returns the slice of the flat file, cut at its end, and no file reads differently afterwards |
| FsFile.ReadiQuietExactly | Project2/sysCall/src/fs.c:453-476 | readi leaves the file system untouched if and only if nothing is read or every block of the range, cut at the end of the file, is allocated |
| FsLogged.ReadiLogsExactly | Project2/sysCall/src/fs.c:453-476 | unless blocks run out, readi hands a block to log_write if and only if something is read and the range, cut at the end of the file, has a hole |
| FsFile.ReadBack | Project2/sysCall/src/fs.c:453-511 | a read of the range just written returns the bytes written and changes nothing, so it cannot run out of blocks |
| FsFile.WriteiSync | Project2/sysCall/src/fs.c:506-510 | after writei the disk inode equals the one in memory if and only if the file grew or no pointer of the inode was filled in |
| FsFile.WriteiSyncsOthers | Project2/sysCall/src/fs.c:506-510 | the agreement of every other inode with its disk copy is left alone |
| FsLogged.WriteAdds | Project2/sysCall/src/fs.c:482-504 | exactly which blocks writei's loop logs, in terms of the file system before it: the data blocks, the indirect block if an entry of it is filled, and the bitmap blocks of the first unmarked blocks, as many as holes are filled; it panics exactly if there are too few of these |
| FsBudget.WriteiCosts | Project2/sysCall/src/fs.c:482-511 | exactly how many distinct blocks a writei logs, computed from the file system before it, and that it runs out of blocks exactly if fewer are unmarked than it fills holes |
| FsHole.HoleWriteNotLogged | Project2/sysCall/src/fs.c:506-510 | an input on which WriteiSync's condition fails: a 16-byte entry written at the start of the missing second block of a root directory succeeds, whatever its first block holds, and the disk inode still has no block there; read back from disk the file system has a leaked block |
| FsHole.HoleReadLogs | Project2/sysCall/src/fs.c:469-474 | an input on which readi logs: reading the first entry of the missing second block of a root directory succeeds, changes the file system, and logs blocks |
| FsHole.HoleWriteLost | Project2/sysCall/src/fs.c:506-510 | whatever is written into a direct hole without growing the file reads as zeros once the inode is loaded from disk again |
| FsHole.HoleWriteLeaks | Project2/sysCall/src/fs.c:288-312 | after a writei and a reload of the inode every block marked in use has an owner again if and only if the file grew or no pointer of the inode was filled in |
| FsBudget.ChunkFitsReservation | Project2/sysCall/src/file.c:133-151 | a chunk of filewrite logs at most MAXOPBLOCKS distinct blocks for a file without holes, and exactly that many if and only if its four blocks are all new but the first, the indirect block too, the four free blocks that balloc will find lie in four bitmap blocks, and the file grows; for any file it logs at most one more, if and only if all four blocks are holes, the indirect block is missing, the five free blocks lie in five bitmap blocks, and the file grows |
| FsWide.TenIsReached | Project2/sysCall/src/file.c:133-151 | a file system on which this happens: consistent, every inode as on the disk, five free blocks in five bitmap blocks, and a file without holes; the chunk logs exactly MAXOPBLOCKS blocks |
| FsWide.ElevenIsReached | Project2/sysCall/src/file.c:133-151 | the same for a file that has none of the blocks below its end: the chunk logs MAXOPBLOCKS + 1 blocks |
| FsBudget.ItruncFits | Project2/sysCall/src/fs.c:332-352 | the transaction in which iput truncates a file logs one block more than its blocks have bitmap blocks, so it stays within MAXOPBLOCKS if and only if these are fewer than MAXOPBLOCKS |
| FsSpread.ItruncOverruns | Project2/sysCall/src/fs.c:332-352 | a file system on which the truncation does not fit: consistent, the inode as on the disk, ten blocks of the file in ten bitmap blocks; itrunc logs MAXOPBLOCKS + 1 blocks |
| FsCalls.ReleasedFrees | Project2/sysCall/src/fs.c:332-352 | the freeing in iput gives back exactly the blocks of this inode, leaves it free without blocks, in memory and on disk, and no other inode is concerned |
| FsCalls.UnlinkFits | Project2/sysCall/src/sysfile.c:221-236 | the transaction of unlink stays within MAXOPBLOCKS if and only if the file does not go away or its blocks lie in at most nine bitmap blocks less the inode blocks written, one or two; so always on a disk of seven bitmap blocks |
| FsSpread.UnlinkOverruns | Project2/sysCall/src/sysfile.c:221-236 | unlinking the only name of this file logs more than MAXOPBLOCKS blocks |
| FsCalls.LinkFits | Project2/sysCall/src/sysfile.c:148-174 | the transaction of link logs at most six blocks, if the name turns out to be bound as well |
| FsCalls.CreateFits | Project2/sysCall/src/sysfile.c:268-288 | the transaction of create, of a directory with its two entries as well, logs at most nine blocks |
| FsBudget.WriteiNoHoles | Project2/sysCall/src/fs.c:482-511 | writei leaves a file without holes without holes |
| FsBudget.FileWriteRefines | Project2/sysCall/src/file.c:118-156 | filewrite writes a prefix of the data, all of it if it returns success; otherwise the next chunk would have run beyond the largest file |
| FsBudget.FileWriteFits | Project2/sysCall/src/file.c:133-151 | every transaction of a filewrite stays within its reservation, for a file without holes |
| FileSystem.FileSystem.Balloc | Project2/sysCall/src/fs.c:57-78 | the first block that is not marked, now marked and zeroed; a panic exactly if there is none |
| FileSystem.FileSystem.Bfree | Project2/sysCall/src/fs.c:82-95 | the block's bit is cleared, or the kernel panics if it was clear |
| FileSystem.FileSystem.Iupdate | Project2/sysCall/src/fs.c:221-236 | the inode's slot of its inode block is the in-memory copy; the rest of the block stays |
| FileSystem.FileSystem.Ilock | Project2/sysCall/src/fs.c:288-312 | the in-memory copy is the disk's inode, and the new state is the reloaded one of ReloadSound; nothing changes if the disk had the inode as it was; a free one is a panic |
| FileSystem.FileSystem.Bmap | Project2/sysCall/src/fs.c:373-400 | the address of the file block, with all that BmapMaps says of the new state |
| FileSystem.FileSystem.Itrunc | Project2/sysCall/src/fs.c:408-435 | all that ItruncFreesAll says, without a panic |
| FileSystem.FileSystem.Writei | Project2/sysCall/src/fs.c:482-511 | the return value and the new state, with all that WriteiRefines says |
| FileSystem.FileSystem.Readi | Project2/sysCall/src/fs.c:453-476 | the bytes and the return value, with all that ReadiRefines says |
| FileSystem.FileSystem.WriteOp | Project2/sysCall/src/file.c:134-148 | one transaction of filewrite writes its chunk or nothing, and logs at most MAXOPBLOCKS blocks for a file without holes |
| FileSystem.FileSystem.Filewrite | Project2/sysCall/src/file.c:118-156 | the return value, the new offset and the file's contents: a prefix of the data, all of it exactly on success |
| DirSpec.StrnEqMeans | Project2/sysCall/src/fs.c:517-520 | strncmp over DIRSIZ bytes finds two names equal exactly if they are equal up to their first NUL and DIRSIZ bytes |
| DirSpec.LookupMeans | Project2/sysCall/src/fs.c:525-548 | dirlookup finds a name exactly if the directory binds it, and then the inode it is bound to |
| DirSpec.DirlinkBinds | Project2/sysCall/src/fs.c:552-578 | dirlink fails exactly if the name is bound; otherwise the directory is the old map with this one binding added |
| DirSpec.UnlinkUnbinds | Project2/sysCall/src/sysfile.c:226-228 | zeroing the entry removes exactly this binding |
| DirSpec.LinkThenUnlink | Project2/sysCall/src/fs.c:552-578 | unlinking a name that was just linked gives the old map back |
| DirFile.OverwriteEntry | Project2/sysCall/src/fs.c:572-575 | writing one entry's 16 bytes changes or appends that entry and no other |
| DirFile.DirlinkOnDisk | Project2/sysCall/src/fs.c:552-578 | the writei of dirlink makes the directory file bind the new name as well, and leaves every other file alone |
| DirFile.UnlinkOnDisk | Project2/sysCall/src/sysfile.c:226-228 | the writei of unlink makes the directory file lack exactly this name, and leaves every other file alone |
| PathSpec.SkipElemTakesFirst | Project2/sysCall/src/fs.c:596-618 | skipelem takes the slash-separated names off a path one by one, each cut to DIRSIZ bytes, and reports the end exactly if none is left |
| PathSpec.LastName | Project2/sysCall/src/fs.c:635-640 | the path that is left is empty exactly behind the last name, which is how nameiparent knows where to stop |
| Namei.Skipelem | Project2/sysCall/src/fs.c:596-618 | the loop computes the next name and the rest of the path that SkipElemTakesFirst speaks of |
| Namei.Namecmp | Project2/sysCall/src/fs.c:517-520 | true exactly for names that are equal up to their first NUL and DIRSIZ bytes |
| Namei.Icache.Iget | Project2/sysCall/src/fs.c:242-272 | one reference more for this inode number and for no other; cached inodes stay where they are; a panic only if the inode is not cached and no slot is free |
| Namei.Icache.Idup | Project2/sysCall/src/fs.c:277-283 | one reference more in this slot |
| Namei.Icache.Iput | Project2/sysCall/src/fs.c:332-352 | one reference less in this slot |
| Namei.Icache.Dirlookup | Project2/sysCall/src/fs.c:525-548 | the first entry with this name, with a reference to its inode; no change if there is none |
| Namei.Icache.Descend | Project2/sysCall/src/fs.c:633-654 | one level: the reference to the directory is given up for one to what it binds the name to |
| Namei.Icache.Namex | Project2/sysCall/src/fs.c:625-657 | the result is the fold of lookup over the names of the path, or over all but the last for nameiparent; the reference counts are as before but for one more of the inode returned, and all as before on failure |
| LinkProtocol.RunKeeps | Project2/sysCall/src/sysfile.c:126-291 | in every interleaving of link, unlink, create and iput: nlink is the entries naming the inode, plus the half-done links to it, plus the entries that went away with freed directories; entries lead from directories to inodes in use, and a directory has one name at most |
| LinkProtocol.LinksCountEntries | Project2/sysCall/src/sysfile.c:126-291 | each inode's nlink is exactly the number of entries naming it, of half-done links to it, and of entries naming it that went away when their directory was freed; "." and the ".." of unlinked directories are not counted |
| LinkProtocol.LostWithDirectory | Project2/sysCall/src/fs.c:332-352 | the last of these numbers changes in a step if and only if the step frees a directory that holds an entry naming the inode |
| LinkProtocol.LinkIsLost | Project2/sysCall/src/sysfile.c:239-291 | a run at whose end nobody is at work, no entry names a file, and its nlink is 1: it was created in a directory that another process had just unlinked |
| LinkProtocol.UpLostExactly | Project2/sysCall/src/fs.c:633-654 | in every run the ".." of a directory leads to a directory in use until the step that frees that one, and no step does so while the directory below is linked |
| LinkProtocol.UpIsFree | Project2/sysCall/src/fs.c:308-310 | a run at whose end a process is in a directory whose ".." names a free inode: it and its parent were unlinked and the parent was freed, so that a lookup of ".." from there is the panic of ilock |
| LinkProtocol.FreedIsUnnamed | Project2/sysCall/src/fs.c:332-352 | when iput frees an inode, no entry names it and no link to it is half done |
| LinkProtocol.UnlinkNeverPanics | Project2/sysCall/src/sysfile.c:219-220 | the "nlink < 1" panic is never reached, and no step leaves an entry naming a free inode |
| ProcTable.ReparentedAt | Project2/sysCall/src/proc.c:254-261 | exit's loop gives every child of the process to init and no other process, and wakes init exactly if one of them is a zombie |
| Proc.Ptable.Wakeup1 | Project2/sysCall/src/proc.c:458-465 | exactly the processes sleeping on the channel become RUNNABLE |
| Proc.Ptable.Kill | Project2/sysCall/src/proc.c:480-497 | the first slot with the pid is marked, and woken if it sleeps; -1 exactly if no slot has it |
| Proc.Ptable.ExitLocked | Project2/sysCall/src/proc.c:247-266 | exit's critical section: the parent is woken, children go to init, the process is a zombie |
| Proc.Ptable.WaitScan | Project2/sysCall/src/proc.c:280-304 | the first zombie child is freed and its pid returned; otherwise nothing changes, and it is known whether there are children |
| Proc.Ptable.AllocSlot | Project2/sysCall/src/proc.c:74-94 | the first unused slot gets the next pid; nothing changes if there is none |
| ProcProtocol.RunKeeps | Project2/sysCall/src/proc.c:181-474 | every run of any number of CPUs and processes, through fork, exit, wait, sleep, wakeup, yield, kill and the scheduler, keeps the scheduling, family, sleeping and pid invariants |
| ProcProtocol.NotOnCpu | Project2/sysCall/src/proc.c:323-382 | while no CPU is switching, a process that is not RUNNING is on none |
| ProcProtocol.RunningMeansOnOneCpu | Project2/sysCall/src/proc.c:323-403 | in every run, whenever ptable.lock is free, a process is RUNNING if and only if it is some CPU's c->proc, and no two CPUs have the same one |
| ProcProtocol.ReapedIsOffCpu | Project2/sysCall/src/proc.c:283-296 | the process whose kernel stack wait frees is no CPU's c->proc |
| ProcProtocol.NoLostExit | Project2/sysCall/src/proc.c:228-312 | in every run a process asleep in wait has no zombie child |
| ProcProtocol.ParentsAlive | Project2/sysCall/src/proc.c:228-261 | in every run each process but init that is RUNNABLE, RUNNING, SLEEPING or ZOMBIE has a parent that is neither unused nor a zombie |
| ProcProtocol.ReapedOnce | Project2/sysCall/src/proc.c:283-296 | a pid is returned by one wait at most, and to the zombie's current parent |
| ProcProtocol.PanicsExactly | Project2/sysCall/src/proc.c:228-382 | in every run a step panics if and only if it is exit called by init: sched's tests of ptable.lock and of the state, made by every yield, sleep and exit, never fail, and no zombie returns from sched |
| ProcProtocol.KillReaches | Project2/sysCall/src/proc.c:480-497 | in every run kill marks the one slot that the pid was given to; the slot is unused, so that the success it reports reaches nobody, if and only if the pid is 0 or that of a fork that failed |
| ProcProtocol.KillZeroMarksUnused | Project2/sysCall/src/proc.c:484-492 | right after boot kill(0) marks a free slot and reports success |
| SleepLock.OneHolder | Project2/sysCall/src/sleeplock.c:23-42 | in every interleaving at most one thread is inside, and then the lock says so |
| SleepLock.SleepersHaveAHolder | Project2/sysCall/src/sleeplock.c:23-42 | whenever the inner spinlock is free, a thread asleep on the lock, or about to be, waits for a lock that another thread holds |
| SleepLock.NoLostWakeup | Project2/sysCall/src/proc.c:418-474 | when releasesleep calls wakeup1 every thread past its test is SLEEPING on the channel, none is between test and sleep, and the call wakes them all |
| PipeSpec.PutAppends | Project2/sysCall/src/pipe.c:93 | a byte written to a pipe that is not full is appended to the buffered bytes, through counter wrap-around |
| PipeSpec.NextTakes | Project2/sysCall/src/pipe.c:116 | a byte read from a pipe that is not empty is the oldest of the buffered ones |
| PipeSpec.FillAppends | Project2/sysCall/src/pipe.c:84-94 | pipewrite's loop appends a prefix of the bytes, more than none if there was room |
| PipeSpec.DrainTakes | Project2/sysCall/src/pipe.c:112-117 | piperead's loop takes the oldest bytes, as many as asked for or all |
| Pipe.Ring.Write | Project2/sysCall/src/pipe.c:84-94 | the buffered bytes grow by the bytes written, and it stops short only at a full pipe |
| Pipe.Ring.Read | Project2/sysCall/src/pipe.c:112-117 | the bytes returned and those still buffered together are those buffered before |
| Pipe.Ring.Close | Project2/sysCall/src/pipe.c:60-75 | the closing step of PipeProtocol on the ring: the page is freed exactly when both ends are closed, which FreedIsIdle shows to be when nobody is reading or writing |
| PipeProtocol.BoundedFifo | Project2/sysCall/src/pipe.c:60-121 | in every interleaving the bytes written are the bytes read followed by the at most PIPESIZE buffered ones |
| PipeProtocol.SleepersHaveReason | Project2/sysCall/src/pipe.c:79-121 | in every run a sleeping writer finds the pipe full and the read end open; a sleeping reader finds it empty and the write end open, until a step that ForgottenExactly names |
| PipeProtocol.ForgottenExactly | Project2/sysCall/src/pipe.c:79-97 | a step leaves a reader asleep that has something to read, for the first time in a run, if and only if in it a killed writer with more than PIPESIZE bytes left runs while a reader sleeps |
| PipeProtocol.FreedIsIdle | Project2/sysCall/src/pipe.c:60-75 | in every run, once both ends are closed and the page is freed nobody is in the middle of a read or a write |
| PipeProtocol.KilledWriterLeavesSleeper | Project2/sysCall/src/pipe.c:86-89 | the exception is real: a run at whose end a reader sleeps on a full pipe because a killed writer left without waking it |
| Umalloc.UnitsSuffice | Project2/sysCall/src/umalloc.c:69 | the block has room for the request exactly if the 32-bit rounding does not wrap |
| Umalloc.SbrkGetsTheSize | Project2/sysCall/src/umalloc.c:52-54 | sbrk is asked for what malloc needs exactly for sizes up to 2^31 - 16 and for those so large that the rounding wraps |
| HeapSpec.FreeKeepsHeap | Project2/sysCall/src/umalloc.c:25-44 | merging a live block into the list keeps it address ordered, without overlap and without two adjacent free blocks, and free plus live units equal those granted |
| HeapSpec.TakeKeepsHeap | Project2/sysCall/src/umalloc.c:74-83 | taking a block, or its upper end, keeps the same invariant, and the block returned is apart from every live one |
| HeapSpec.GrowKeepsHeap | Project2/sysCall/src/umalloc.c:54-60 | a new region from sbrk keeps the invariant with the region as a live block |
| HeapSpec.CanonicalList | Project2/sysCall/src/umalloc.c:25-44 | the free list is determined by which units are free, whatever the order of the calls that led to it |
| HeapSpec.TakeThenMerge | Project2/sysCall/src/umalloc.c:25-44 | free undoes malloc: the list is the one before |
| Umalloc.Heap.FindPlace | Project2/sysCall/src/umalloc.c:30-32 | free's search from freep ends, across the wrap of the list, at the last free block below the one freed |
| Umalloc.Heap.Free | Project2/sysCall/src/umalloc.c:25-44 | the circular list is the old one with the block merged in at its place and coalesced on both sides; the block is no longer live |
| Umalloc.Heap.Morecore | Project2/sysCall/src/umalloc.c:47-61 | at least 4096 units are asked for and merged into the list; nothing changes if sbrk refuses |
| Umalloc.Heap.Malloc | Project2/sysCall/src/umalloc.c:64-90 | it returns 0 only if no free block is large enough and sbrk refuses, after one call of morecore at most; otherwise a block of the right number of units, apart from every live one, cut from the list found or from that list with one region merged in |
| VmSpec.SetPteOwns | Project2/sysCall/src/vm.c:68-73 | entering a user page changes what the address space owns by that page and the one it replaces; a kernel mapping changes nothing |
| VmSpec.NewTableOwns | Project2/sysCall/src/vm.c:45-52 | a new page table is owned once, and its pages are none |
| VmSpec.LookupOwned | Project2/sysCall/src/vm.c:36-55 | a mapped user page is owned by the address space |
| Vm.Kmem.Kfree | Project2/sysCall/src/kalloc.c:60-77 | a panic exactly for a page outside end .. PHYSTOP; otherwise the page is in front of the free list, filled with junk, and counted free once |
| Vm.Kmem.Kalloc | Project2/sysCall/src/kalloc.c:83-95 | the first free page leaves the list; 0 exactly if there is none |
| Vm.Kmem.Freerange | Project2/sysCall/src/kalloc.c:47-53 | exactly the pages of the range are added to the free ones; a panic exactly if one of them is outside the managed memory |
| Vm.Kmem.Walkpgdir | Project2/sysCall/src/vm.c:36-55 | with alloc, a missing table is made unless memory is out; no mapping changes, and every page still has one owner or is free |
| Vm.Kmem.Mappages | Project2/sysCall/src/vm.c:61-80 | the first k pages are entered, all of them exactly on success; it stops with the "remap" panic only at a page that was mapped already, and the k pages before it were not; nothing else changes, and user pages become the address space's own |
| Vm.Kmem.Deallocuvm | Project2/sysCall/src/vm.c:256-279 | the pages between the new and the old size are unmapped and free again, no other mapping changes, and every page is free or owned once |
| Vm.Kmem.Allocuvm | Project2/sysCall/src/vm.c:222-249 | on success zeroed writable user pages are mapped from the old size up; on failure every mapping is as before, and only page tables may remain; either way every page is free or owned once and pages in use keep their contents |
| VmCopy.Freevm | Project2/sysCall/src/vm.c:284-298 | exactly the pages that the address space owned, directory, tables and user pages, are added to the free ones, each once |
| VmCopy.KmapMeans | Project2/sysCall/src/vm.c:106-115 | the four ranges of kmap together map physical memory at KERNBASE, read-only for the kernel's text, and the devices at their own address |
| VmCopy.KmapApart | Project2/sysCall/src/vm.c:106-115 | the ranges do not overlap, so setupkvm cannot run into mappages' "remap" panic |
| VmCopy.Setupkvm | Project2/sysCall/src/vm.c:119-136 | a directory with the kernel half and no user page, on pages that were free; or every page is free again |
| VmCopy.Copyuvm | Project2/sysCall/src/vm.c:316-345 | the child has the parent's contents and permissions page by page on pages that were free; without memory every page taken is free again; it panics only if some page below the size is not mapped; the parent and all pages in use are untouched |
| VmUser.NoAlias | Project2/sysCall/src/vm.c:316-345 | two user pages of one address space are never the same physical page |
| VmUser.Uva2ka | Project2/sysCall/src/vm.c:350-360 | the physical page exactly if it is present and open to user code; a null pointer is followed exactly if there is no page table |
| VmUser.Copyout | Project2/sysCall/src/vm.c:366-386 | reading user memory afterwards gives the bytes copied in the range written and the old ones elsewhere; it succeeds exactly if the whole range is user memory, and otherwise stops in front of the first page that is not, having followed a null pointer exactly if that page has no page table |
| VmUser.Growproc | Project2/sysCall/src/proc.c:158-175 | a growth is all or nothing; a shrink below zero wraps and does nothing; a shrink to exactly zero releases the pages, reports an error and leaves the size as it was, and nothing else makes a page below the size unmapped. What stays mapped keeps its contents, and so do the pages of others |
| VmSystem.Isolated | Project2/sysCall/src/vm.c:316-345 | of all address spaces together, no two user pages are the same physical page |
| VmSystem.Machine.Resize | Project2/sysCall/src/proc.c:158-175 | over any number of address spaces: each page is free or owned as often as before, and every other process has the same pages with the same bytes |
| VmSystem.Machine.Write | Project2/sysCall/src/vm.c:366-386 | copyout changes the bytes of one process and of no other |
| VmSystem.Machine.Create | Project2/sysCall/src/vm.c:119-136 | one more address space or none; all other processes and the page count as before |
| VmSystem.Machine.Fork | Project2/sysCall/src/vm.c:316-345 | one more address space with the same contents, or none; all other processes and the page count as before; a panic only if a page below the size is not mapped |
| VmSystem.Machine.Free | Project2/sysCall/src/vm.c:284-298 | one address space less, its pages free; all other processes and the page count as before |
| VmSystem.Machine.Run | Project2/sysCall/src/vm.c:119-386 | over any sequence of setupkvm, growproc, copyuvm, copyout and freevm on any address spaces, every page is free or owned as often as at the start, once at most, up to a panic of copyuvm; and there is none as long as no process shrinks itself to exactly zero |
| ShellRoundTrip.ParseInvertsPrint | Project2/sysCall/src/sh.c:328-446 | parsing the fully parenthesised printing of a command gives the command back, for every tree whose EXEC nodes have at most MAXARGS - 1 words |
| ShellTerminate.LinePlaced | Project2/sysCall/src/sh.c:345-446 | for every line, the words of the parsed command lie in the line, apart from the blanks and symbols |
| ShellTerminate.NulAt | Project2/sysCall/src/sh.c:450-493 | nulterminate leaves the characters of words alone and puts a NUL behind every word of the command |
| ShellTerminate.WordsTerminated | Project2/sysCall/src/sh.c:450-493 | after nulterminate every argument and file name reads, as a C string, as exactly its token |
| Shell.Parser.Gettoken | Project2/sysCall/src/sh.c:266-308 | the kind and the bounds of the next token, and the position behind it |
| Shell.Parser.Parseredirs | Project2/sysCall/src/sh.c:375-397 | the redirections at this place, as the grammar's function gives them, or its failure |
| Shell.Parser.Parseexec | Project2/sysCall/src/sh.c:416-446 | the simple command or block at this place, or the failure; it always ends |
| Shell.Parser.Parseblock | Project2/sysCall/src/sh.c:400-413 | the block at this place with its redirections, or the failure |
| Shell.Parser.Parsepipe | Project2/sysCall/src/sh.c:362-372 | the pipeline at this place, or the failure |
| Shell.Parser.Parseline | Project2/sysCall/src/sh.c:345-359 | the line at this place, or the failure |
| Shell.Parser.Parsecmd | Project2/sysCall/src/sh.c:328-342 | the command of the whole line, or the failure if anything is left |
| Shell.Parser.Nulterminate | Project2/sysCall/src/sh.c:450-493 | the buffer with the NULs that the command asks for |
| Shell.RunParsecmd | Project2/sysCall/src/sh.c:328-342 | for every line: if it parses, each word of the command is in the buffer as a C string equal to its token |
| Grep.MatchesSubstring | Project2/sysCall/src/grep.c:73-106 | what the matcher must decide, with the substring named: in the language of the pattern, at the start of the text for '^', up to its end for an unstarred final '$' |
| Grep.MatchStar | Project2/sysCall/src/grep.c:99-106 | true exactly if some number of characters that c accepts can be skipped so that the rest matches |
| Grep.MatchHere | Project2/sysCall/src/grep.c:85-96 | true exactly if some prefix of the text, all of it under '$', is in the language of the pattern; the mutual recursion ends |
| Grep.Match | Project2/sysCall/src/grep.c:73-82 | sound and complete: true exactly if the text has a substring that the pattern describes |
| GrepLoop.ExaminedExactly | Project2/sysCall/src/grep.c:11-36 | the lines handed to match are the complete lines of the input if and only if no read that leaves no newline in the buffer is followed by a newline later |
| GrepLoop.ShortReadLoses | Project2/sysCall/src/grep.c:29-30 | the condition can fail: two short reads are enough to lose the start of a line |
| GrepLoop.FullReadsLoseNothing | Project2/sysCall/src/grep.c:11-36 | reads that fill the buffer, as those of a file do, lose nothing if every line with its newline fits the buffer |
| GrepLoop.GrepInput | Project2/sysCall/src/grep.c:11-36 | the output is the matching ones of the lines examined, in order, and of all complete lines of the input if nothing is lost |

## Left out

- Umalloc.Heap.Malloc: takes the region that sbrk gives to be as large as malloc meant to ask for, so it does not model a success of sbrk for an argument that wrapped to zero or less; `SbrkGetsTheSize` says exactly for which sizes the argument is the one meant.
- Umalloc.Heap.Free: requires a block that malloc returned and that was not freed since, as the C library does; it models no misuse.
- Log.Log.InstallTrans: requires that no block of the log area is in the cache as modified, which the file system never does.
- FsSpec.BmapMaps: says nothing of the state after the "out of blocks" panic; running out of blocks or inodes is a panic of the original.
- FsCalls.UnlinkFits: adds up what unlink itself does; an iput of a directory on the way, whose last reference that is, would log its own blocks in addition, as `ItruncFits` counts them. It takes the directory to have no hole, and so do FsCalls.LinkFits and FsCalls.CreateFits for the part that is searched.
- Namei.Icache.Iput: does not free the inode; that last step of iput, with nlink 0, is `ReleasedFrees` for the disk and FreeInode of LinkProtocol for the runs.
- Namei.Icache.Namex: sees the directories as they are during the walk; other processes' changes between two levels are in LinkProtocol, not here.
- LinkProtocol.LinksCountEntries: leaves out "." and, once a directory is unlinked, its "..", which nlink does not count.
- LinkProtocol.RunKeeps: treats namei as a step that yields some inode in use with a reference to it, which it does except behind a ".." as in `UpIsFree`; deadlocks between inode locks are not excluded, and nlink does not overflow.
- ProcProtocol.RunKeeps: pids do not overflow, fork's copying of memory and files is one of two outcomes, and a process in the middle of fork does not exit.
- ProcProtocol.PanicsExactly: leaves out sched's tests of ncli and of the interrupt flag, and allocproc's memory.
- PipeProtocol.SleepersHaveReason: a sleep on the pipe is one step with the release of p->lock, which is what the SleepLock module shows of sleep().
- BioProtocol.ReadsLatest: is about runs in which every holder has written its changes or given them to the log before brelse, as the callers in fs.c and log.c do; `LosesExactly` has no such hypothesis.
- BioProtocol.RunKeeps: lets bget take any usable buffer, of which Bio.Bcache.Bget takes the one released longest ago; the sleeping and waking of acquiresleep is the subject of SleepLock.
- VmCopy.Copyuvm: requires what is mapped below the size to be memory; after a panic it says only what is still in use.
- Vm.Kmem.Mappages: works on page numbers in place of addresses with an offset, and requires of pages that become a user's that nobody owns them.
- Vm.Kmem.Allocuvm: requires that nothing is mapped from the old size up, which keeps its mappages off the "remap" panic, and Vm.Kmem.Deallocuvm an old size of KERNBASE at most, as all callers give it.
- Vm.Kmem.Kfree: requires a page that is not free, which the callers here establish; the source does not notice a page freed twice.
- VmSystem.Machine.Run: has no exec, which is made of the same operations, and takes the operations one at a time, as each works on its own page directory and the free list has a lock.
- GrepLoop.GrepInput: input and pattern have no NUL characters, and a read never fails.
- ShellRoundTrip.ParseInvertsPrint: printed redirections are < and >; the parser takes >> as well, but the tree does not tell it from >, as sh.c gives both the same mode.
- FileSystem reads and writes blocks through the log's view of the disk, so the buffer cache and the commit do not appear in it a second time.
- The layers are joined by their contracts, not by one combined state: crash safety is proved for block writes, and the file layer for the state those writes build.
- mkfs: its image enters as the hypothesis that the blocks in use are the metadata and those the inodes own.
- ialloc, stati, argument fetching and the file descriptor table: short scans and copies without a property of their own.
- The parser's tree is a value: two redirections of one command share no node, and exhaustion of the shell's memory is not modelled.
- Device files are an answer from outside (`device`); device drivers, console, clock and interrupts are not part of this model.
- Spinlocks are atomic locks with an owner; memory ordering, the context switch itself and boot are not part of this model.
- runcmd, init and the small utilities, wish, wzip, wcat and wgrep: input and output plumbing, or no clean property holds.
- Termination of waiting loops, fairness and freedom from deadlock.
