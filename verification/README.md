# Xinu kernel: models and proofs

Dafny models of the parts of the Xinu kernel (BeagleBone Black port) that keep linked or
cached state in shared tables, with the properties that make them correct.

- **Local file system** (`Lfs*.dfy`). Files are chains of index blocks on a disk; each open
  file caches one index block and one data block. The class `Lfs.LocalFs` does what
  `device/lfs` does, field by field; `LfsRuns` and `LfsCalls` show that no program can tell it
  from a table of byte sequences with one position per open file.
- **Heap** (`Heap*.dfy`). The address-ordered, coalescing free list behind `getmem`, `getstk`,
  `freemem` and `freestk`, with 32-bit lengths.
- **Kernel** (`QueueTab`, `DeltaList`, `Kernel*.dfy`). The queue table, the scheduler with
  deferral, semaphores, messages, sleeping, and `set_scheduler`. A step is the code between two
  points where the processor may be switched; `setprio` is any table of priorities. `KernelRuns`
  and `KernelCalls` show over every sequence of calls, ticks and switches who is served first,
  who wakes when, and which message arrives.
- **Ports** (`Port*.dfy`). Message queues as a protocol: a process granted by a semaphore may be
  overtaken by a reset before it runs.
- **Read-write blockers** (`RwBlocker`, `Rwb*.dfy`). The table of first-come first-served
  reader/writer locks, with atomic calls and with the switch that `ready` allows inside a signal.
- **Stand-alone algorithms** (`Qsort`, `Crc32`, `Checksum`). The in-place three-way quicksort,
  the table-driven CRC, and the Internet checksum from `ip_out` to `ip_in`.

Objects that the kernel updates in place are classes whose methods follow its code; their
contracts tie the new state to functions of the old one, and the properties are lemmas about
those functions. `dafny verify dfyconfig.toml` checks the project.

## Findings

Where the code does not meet what one would expect of it, the model follows the code and says
exactly when it does.

- `freemem` refuses a block that lies above all free memory (`HeapRuns.RefusedIff`,
  `HeapRuns.FreeUndoesGetmem`); `freestk` does not.
- `freestk` works out the address before it rounds the length, so it frees what `getstk` took
  only for multiples of 16 (`HeapRuns.FreestkRange`).
- Requests above 0xFFFFFFF0 round to 0 and reserve nothing (`HeapRuns.HugeRequest`).
- `lfsopen` creates an entry without marking the directory dirty (`Lfs.LocalFs.Lfsopen`).
- `kill` and `suspend` leave `readycount` too high; after enough of them the 16-bit counter
  wraps, and then `set_scheduler` loses ready processes or links the ready list to the scratch
  list (`KernelSched.CoveredIff`, `Kernels.Kernel.SetScheduler`, `KernelCount.SchedulerBreaks`).
- `copyqueue` breaks both queues when the source is empty (`QueueTab.CrossedIsBroken`).
- `recvtime(0)` keeps every sleeper asleep for 2^32 - 1 ticks (`KernelTime.ZeroDelayStalls`).
- `newqueue` tests for an id above the table size: the first call after the table is full
  returns an id whose entries lie just beyond the table (`QueueTab.OneIdTooMany`).
- A port keeps 16 bits of its size: larger ones shrink at the first reset
  (`PortSpec.CapacityIs16Bit`).
- A read-write blocker admits a writer at all only if it was created with count 0
  (`RwbSwitch.WriterEverIn`, `RwBlocker.IdleWriter`).
- All read-write blockers share one flag per process: a process that uses two at once can break
  the count and the exclusion of the first (`RwbTable.TryKeepsOrder`, `RwbRuns.NestedRun`).
- A release is counted only after `ready`, which may switch: without deferral a try or a signal
  may let somebody in beside others, or leave everybody waiting for ever; exactly when is
  `RwbSwitch.RunExclusiveIff` and `RwbSwitch.RunStuckIff`, and runs that do are
  `RwbSwitch.LetInBesideWriter`, `RwbSwitch.LetInBesideReader`, `RwbSwitch.LetInBySignal` and
  `RwbSwitch.WriterLeftWaiting`.
- A second carry makes `ip_in` refuse messages that `ip_out` made, and makes other receivers
  refuse headers (`Checksum.SentArrives`, `Checksum.HeaderForOthers`,
  `Checksum.HeaderCarryHappens`); nearly all messages shorter than 4 bytes are refused too.

## Model

| member | source | states |
|---|---|---|
| LfsLayout.PutGetIb | xinu/bbb-xinu/device/lfs/lfibput.c:23-42 | an index block written into its 72-byte slot of its sector and read back is the same block |
| LfsLayout.PutIbOther | xinu/bbb-xinu/device/lfs/lfibput.c:23-42 | the write changes no other index block of the disk |
| LfsLayout.DecEncDir | xinu/bbb-xinu/include/lfilesys.h:90-117 | a directory written in its on-disk format and read back is the same directory |
| LfsDisk.IbWrite | xinu/bbb-xinu/device/lfs/lfibput.c:23-42 | on the whole disk: one index block is replaced, all other index blocks and every data sector stay |
| Lfs.LocalFs.Lfibget | xinu/bbb-xinu/device/lfs/lfibget.c:15-31 | the result is the index block that the disk holds at this number |
| Lfs.LocalFs.Lfibput | xinu/bbb-xinu/device/lfs/lfibput.c:15-43 | in the list of all index blocks exactly one entry changes; data sectors and directory sector do not |
| Lfs.LocalFs.Lfiballoc | xinu/bbb-xinu/device/lfs/lfiballoc.c:10-33 | the first block of the free index list is returned and the list goes on with its successor |
| Lfs.LocalFs.Lfdballoc | xinu/bbb-xinu/device/lfs/lfdballoc.c:12-40 | the first free data sector is returned, the list goes on with its successor, and the buffer is replaced |
| Lfs.LocalFs.Lfdbfree | xinu/bbb-xinu/device/lfs/lfdbfree.c:10-25 | the sector becomes the head of the free data list and links to the old head |
| Lfs.LocalFs.Lfflush | xinu/bbb-xinu/device/lfs/lfflush.c:13-42 | dirty directory, data block and index block reach the disk; the bytes of every file as seen through the cache stay the same |
| Lfs.LocalFs.Lfsetup | xinu/bbb-xinu/device/lfs/lfsetup.c:34-121 | the cache then covers the position; chains grow by exactly the blocks the position needs, the free lists lose those, no other file and no visible byte changes, and inside the file nothing is allocated |
| LfsSetup.TookNext | xinu/bbb-xinu/device/lfs/lfsetup.c:78-94 | when the position is past the last index block the file has just filled its chain, so one block from the free list completes it and the walk invariant holds again |
| LfsSetup.FillFromDisk | xinu/bbb-xinu/device/lfs/lfsetup.c:105-119 | reading the data block named by the cached index block gives the block of the position |
| Lfs.LocalFs.Lflputc | xinu/bbb-xinu/device/lfs/lflputc.c:9-64 | SYSERR for a device that is not open; otherwise exactly one byte of exactly one file is overwritten or appended and the position moves by one |
| Lfs.LocalFs.Lflgetc | xinu/bbb-xinu/device/lfs/lflgetc.c:9-52 | SYSERR when not open, EOF at or past the size, else the byte that was last written at the position, which moves by one; no file changes |
| Lfs.LocalFs.Lflseek | xinu/bbb-xinu/device/lfs/lflseek.c:9-41 | OK exactly for an open file and an offset within its size; only the position changes |
| Lfs.LocalFs.Lflread | xinu/bbb-xinu/device/lfs/lflread.c:9-39 | the bytes from the position on, as many as asked for or as there are; EOF when there are none; no file changes |
| Lfs.LocalFs.Lflwrite | xinu/bbb-xinu/device/lfs/lflwrite.c:9-29 | the bytes replace or extend the file from the position on; other files and positions stay |
| Lfs.LocalFs.Lftruncate | xinu/bbb-xinu/device/lfs/lftruncate.c:29-103 | terminates on every file; the file is empty, the free index list is its chain followed by the old list, its data blocks are pushed onto the free data list, and no other file changes |
| Lfs.LocalFs.Lflcontrol | xinu/bbb-xinu/device/lfs/lflcontrol.c:15-47 | only the truncate request on an open file succeeds, with the effect of lftruncate |
| Lfs.LocalFs.Lflclose | xinu/bbb-xinu/device/lfs/lflclose.c:9-38 | the device is free, the directory is clean and every file keeps its bytes |
| Lfs.LocalFs.Lfsopen | xinu/bbb-xinu/device/lfs/lfsopen.c:46-179 | exactly when the call fails; a known name is opened at position 0, an unknown one is first created empty; and a created entry leaves the directory marked clean, so it is on the disk only if the directory was dirty already |
| Lfs.LocalFs.Lfscreate | xinu/bbb-xinu/device/lfs/lfscreate.c:29-71 | in the terms of the caller: the least multiple of 7 blocks that is at least what was asked for, all on the free index list from 0 up, every sector after the index area on the free data list, every file empty; SYSERR exactly when the index blocks would take more than half the disk |
| Lfs.LocalFs.Lfsinit | xinu/bbb-xinu/device/lfs/lfsinit.c:11-32 | nothing is open and the directory is not in memory |
| Lfs.Reboot | xinu/bbb-xinu/device/lfs/lfsinit.c:11-32 | a restart with all files closed and a clean directory finds the same files with the same bytes |
| Lfs.StrEq | xinu/bbb-xinu/device/lfs/lfsopen.c:46-66 | the comparison of names tells whether the null-terminated strings are equal |
| LfsState.FileByteAt | xinu/bbb-xinu/include/lfilesys.h:135-158 | a byte of a file is found through directory entry, chain and index block, overlaid by whichever open control block caches the block |
| LfsOps.PutIsStored | xinu/bbb-xinu/device/lfs/lflputc.c:33-63 | once lfsetup has covered the position, storing through the cache writes exactly the byte at the position of the abstract file |
| LfsOps.GetIsMoved | xinu/bbb-xinu/device/lfs/lflgetc.c:32-51 | once lfsetup has covered the position, the byte loaded from the cache is the byte of the abstract file there |
| LfsOps.StoredMore | xinu/bbb-xinu/device/lfs/lflwrite.c:19-26 | two writes one after the other are one write of the joined bytes |
| LfsOps.TruncIsTruncated | xinu/bbb-xinu/device/lfs/lftruncate.c:29-103 | the disk as the loops leave it represents the file as empty and the spliced free lists |
| LfsSteps.LastOfChain | xinu/bbb-xinu/device/lfs/lfsetup.c:78-94 | the cached index block without a successor is the last one of its file |
| LfsFormat.FreshIsGood | xinu/bbb-xinu/device/lfs/lfscreate.c:29-71 | the formatted disk satisfies the file-system invariant |
| LfsFormat.GoodIsPartition | xinu/bbb-xinu/device/lfs/lfiballoc.c:17-32 | under the invariant every index block and every data block is on its free list or in exactly one file, exactly once, and no two open control blocks share a directory entry |
| LfsFormat.Remounted | xinu/bbb-xinu/device/lfs/lfsinit.c:11-32 | the bytes of the files do not depend on control blocks that are closed |
| LfsRuns.StepRefines | xinu/bbb-xinu/device/lfs/lflputc.c:9-64 | one call on the real state has exactly its meaning on a plain table of byte sequences and positions, and the same result |
| LfsRuns.RunRefines | xinu/bbb-xinu/device/lfs/lfsetup.c:13-122 | so has every sequence of writes, reads, seeks, truncations, closes, creations and opens |
| LfsCalls.LeadsRefines | xinu/bbb-xinu/device/lfs/lflread.c:9-39 | what any program sees of its calls is what the plain table gives |
| LfsCalls.Putc | xinu/bbb-xinu/device/lfs/lflputc.c:9-64 | the call in place is one step of such a run |
| LfsCalls.Getc | xinu/bbb-xinu/device/lfs/lflgetc.c:9-52 | likewise, a read of one byte or of none at the end |
| LfsCalls.ReadBytes | xinu/bbb-xinu/device/lfs/lflread.c:9-39 | likewise |
| LfsCalls.WriteBytes | xinu/bbb-xinu/device/lfs/lflwrite.c:9-29 | likewise |
| LfsCalls.Seek | xinu/bbb-xinu/device/lfs/lflseek.c:9-41 | likewise when it succeeds, no step otherwise |
| LfsCalls.Empty | xinu/bbb-xinu/device/lfs/lflcontrol.c:15-47 | likewise for truncation |
| LfsCalls.CloseFile | xinu/bbb-xinu/device/lfs/lflclose.c:9-38 | likewise |
| LfsCalls.OpenFile | xinu/bbb-xinu/device/lfs/lfsopen.c:46-179 | an open of a known name is one step, of an unknown one the steps create and open |
| HeapSpec.Roundmb | xinu/bbb-xinu/include/memory.h:10 | rounds up to a multiple of 16, except that lengths above 0xFFFFFFF0 round to 0 |
| HeapSpec.FitsIsApart | xinu/bbb-xinu/system/freemem.c:43-48 | comparing with the two neighbours finds every overlap with the whole list |
| HeapSpec.GivenWf | xinu/bbb-xinu/system/freemem.c:50-75 | after a free the list is again in address order, disjoint and fully coalesced |
| HeapSpec.GivenFree | xinu/bbb-xinu/system/freemem.c:50-75 | an accepted free adds exactly the freed range to the free bytes |
| HeapSpec.TakenFree | xinu/bbb-xinu/system/getmem.c:31-80 | an allocation removes exactly the range it hands out, which was free |
| HeapSpec.Canonical | xinu/bbb-xinu/system/freemem.c:60-75 | two coalesced lists with the same free bytes are the same list |
| HeapSpec.TotalGiven | xinu/bbb-xinu/system/freemem.c:50-75 | a free adds its length to the sum of the free lengths |
| HeapSpec.TotalTaken | xinu/bbb-xinu/system/getmem.c:31-80 | an allocation takes its length from the sum |
| Heap.MemList.Meminit | xinu/bbb-xinu/system/meminit.c:13-35 | one free block that is the heap, and a counter of 0 |
| Heap.MemList.Getmem | xinu/bbb-xinu/system/getmem.c:12-85 | SYSERR exactly for 0 bytes or when no free block is large enough; otherwise the low end of the first-fit or best-fit block, lowest among equals; mnext and mprev stay inverse; the counter falls by the length |
| Heap.MemList.Getstk | xinu/bbb-xinu/system/getstk.c:12-77 | the same from the high end: under first fit the lowest sufficient block, under best fit an exact one or the highest of the least ones |
| Heap.MemList.Freemem | xinu/bbb-xinu/system/freemem.c:13-78 | for ranges that do not wrap around: OK exactly for a range that is free nowhere and lies below some free block; the list then has that range added, and a refused call changes nothing |
| Heap.MemList.Freestk | xinu/bbb-xinu/system/freestk.c:10-86 | OK exactly for a range from inside the heap that is free nowhere, at the address worked out before rounding; otherwise as freemem |
| HeapRuns.RunInv | xinu/bbb-xinu/system/freemem.c:26-75 | in every state of every run of the four calls on properly obtained blocks: list sorted and coalesced, every byte free or in exactly one block in use, and free bytes minus counter constant modulo 2^32 |
| HeapRuns.RefusedIff | xinu/bbb-xinu/system/freemem.c:43-48 | freestk never refuses a block in use; freemem does exactly when the block lies above all free memory |
| HeapRuns.FreeUndoesGetmem | xinu/bbb-xinu/system/freemem.c:43-48 | freemem of what getmem returned restores the list itself unless the block was all of the highest free block, and exactly then it is refused |
| HeapRuns.FreeUndoesGetstk | xinu/bbb-xinu/system/freestk.c:52-82 | freestk of the range getstk took is accepted and restores the list |
| HeapRuns.FreestkRange | xinu/bbb-xinu/system/freestk.c:19-28 | the range freestk frees is the one getstk took if and only if the length is a multiple of 16, else it lies too high by the rounding |
| HeapRuns.HugeRequest | xinu/bbb-xinu/include/memory.h:10 | requests above 0xFFFFFFF0 are met whenever any memory is free and reserve nothing |
| HeapCalls.Client.Getmem | xinu/bbb-xinu/system/getmem.c:12-85 | the call in place, for every length, is a step of such a run, and the client then owns the block |
| HeapCalls.Client.Getstk | xinu/bbb-xinu/system/getstk.c:12-77 | likewise for stacks, whose rounded length ends at the word returned |
| HeapCalls.Client.Freemem | xinu/bbb-xinu/system/freemem.c:13-78 | likewise; accepted exactly when some free block lies above |
| HeapCalls.Client.Freestk | xinu/bbb-xinu/system/freestk.c:10-86 | likewise; always accepted |
| QueueTab.TabInserted | xinu/bbb-xinu/system/queue.c:18-29 | linking an entry in keeps every queue a well-formed doubly linked list and all of them disjoint |
| QueueTab.TabRemoved | xinu/bbb-xinu/system/getitem.c:47-58 | unlinking an entry does, and the process is then on no queue |
| QueueTab.TabMoved | xinu/bbb-xinu/system/queue.c:62-75 | copyqueue moves the whole list when the source is not empty |
| QueueTab.MovedNothing | xinu/bbb-xinu/system/queue.c:62-75 | from an empty source it leaves two queues that end in the tail of each other |
| QueueTab.CrossedIsBroken | xinu/bbb-xinu/system/queue.c:62-75 | which are no lists any more, whatever one takes their contents to be |
| Kernels.Kernel.Enqueue | xinu/bbb-xinu/system/queue.c:15-30 | the queue is the old one with the process at its end; SYSERR for a bad queue or process |
| Kernels.Kernel.Dequeue | xinu/bbb-xinu/system/queue.c:39-52 | the first process is returned and the others stay in their order; EMPTY for an empty queue |
| Kernels.Kernel.Getitem | xinu/bbb-xinu/system/getitem.c:47-58 | a process is taken out of the middle of its queue, the others keep their order |
| Kernels.Kernel.Insert | xinu/bbb-xinu/system/insert.c:14-36 | the process goes behind all keys at least as high and before the others |
| Kernels.Kernel.Copyqueue | xinu/bbb-xinu/system/queue.c:62-75 | the destination holds the source list, its old contents are on no queue; the empty source as above |
| Kernels.Kernel.Newqueue | xinu/bbb-xinu/system/newqueue.c:10-30 | the next id with an empty queue, or SYSERR; the id returned is that of a queue in the table if and only if it is not NQENT, for which the table stays as it is |
| QueueTab.OneIdTooMany | xinu/bbb-xinu/system/newqueue.c:12-21 | counted from the start, exactly one call returns an id that is no queue: the first one after the table is full |
| Kernels.Kernel.Insertd | xinu/bbb-xinu/system/insertd.c:22-39 | the sleep queue and its keys are those of a list with the process at its delay |
| DeltaList.Inserts | xinu/bbb-xinu/system/insertd.c:22-39 | insertd adds the process at its absolute delay and changes the delay of nobody else |
| DeltaList.PassedIsSorted | xinu/bbb-xinu/system/insertd.c:22-32 | it goes after all that are due no later and before all that are due later |
| DeltaList.Unsleeps | xinu/bbb-xinu/system/unsleep.c:39-44 | unsleep removes one process and changes the delay of nobody else |
| DeltaList.TickLowers | xinu/bbb-xinu/system/clkhandler.c:55-64 | taking one from the first key lowers every delay by one |
| DeltaList.ExpiredAreDue | xinu/bbb-xinu/system/wakeup.c:13-18 | the processes wakeup releases are exactly those that are due; the others keep their delays |
| KernelTime.TickWakesDue | xinu/bbb-xinu/system/wakeup.c:13-18 | one tick, with the wakeup it may start and the switch at its end: exactly those with one tick left are ready or running, the others have one tick less, and the first of them at least one |
| DeltaList.TickDue | xinu/bbb-xinu/system/wakeup.c:13-18 | of a delta list whose first key has come down by one, the released prefix is those that had one tick left |
| KernelTime.TicksWake | xinu/bbb-xinu/system/clkhandler.c:60-63 | the number of the tick that calls wakeup, for every 32-bit first key: the key itself, or 2^32 more when it is 0 or less |
| KernelTime.ZeroDelayStalls | xinu/bbb-xinu/system/recvtime.c:25-35 | a delay of at least 1 is exactly what keeps the first key above 0; with recvtime(0) the caller is first with key 0 and no sleeper wakes for 2^32 - 1 ticks |
| Kernels.Kernel.Unsleep | xinu/bbb-xinu/system/unsleep.c:14-47 | SYSERR unless the process is asleep; else it has left the sleepers and nobody else wakes at another time |
| Kernels.Kernel.Sleepms | xinu/bbb-xinu/system/sleep.c:29-52 | a delay of 0 yields; otherwise the caller is among the sleepers with that many ticks left, behind those due no later, and nobody else wakes at another time |
| Kernels.Kernel.Recvtime | xinu/bbb-xinu/system/recvtime.c:17-35 | SYSERR for a negative wait; with a message nothing changes; else the caller is among the sleepers with that many ticks left |
| Kernels.Kernel.RecvtimeEnd | xinu/bbb-xinu/system/recvtime.c:39-46 | the message if one came, else TIMEOUT |
| Kernels.Kernel.Tick | xinu/bbb-xinu/system/clkhandler.c:55-64 | the first key falls by one in 32 bits, at 0 wakeup runs, and unless a delay of 0 has stalled the queue the sleepers are those of TickWakesDue |
| Kernels.Kernel.Preempt | xinu/bbb-xinu/system/clkhandler.c:66-73 | the slice has one tick less; at its end the running process is rescheduled with a new slice |
| KernelSpec.StatesAndQueues | xinu/bbb-xinu/system/queue.c:18-51 | at every switch point: ready exactly on the ready list, sleeping or in a timed receive exactly on the sleep queue, waiting exactly on the queue of its semaphore, else on none |
| KernelSpec.SemaphoresAndNull | xinu/bbb-xinu/system/resched.c:20-64 | the queue of a semaphore has length max(0, -scount), and the null process is current or ready |
| KernelSpec.ReschInv | xinu/bbb-xinu/system/resched.c:14-65 | resched keeps all of this and never dequeues from an empty list |
| KernelSpec.ReschChooses | xinu/bbb-xinu/system/resched.c:28-64 | whether its caller still runs or has blocked, resched finds a process to run, keeps the invariant, and no ready process has a key above the priority of the chosen one |
| KernelSpec.ReschRotates | xinu/bbb-xinu/system/resched.c:28-64 | among equal keys the running process goes to the back |
| KernelSteps.RunsAtOutermostStop | xinu/bbb-xinu/system/resched.c:79-105 | a request made at any depth of deferral is carried out at the outermost stop and at no other |
| KernelSteps.InnerStops | xinu/bbb-xinu/system/resched.c:79-105 | inner stops change nothing but the depth |
| Kernels.Kernel.Resched | xinu/bbb-xinu/system/resched.c:14-73 | the state is that of the specification, deferred or not |
| Kernels.Kernel.ReschedCntl | xinu/bbb-xinu/system/resched.c:79-105 | start and stop of deferral; SYSERR for a stop without a start |
| Kernels.Kernel.Ready | xinu/bbb-xinu/system/ready.c:14-37 | the process joins the ready list with the priority that setprio gives it, and resched follows |
| KernelEffects.MadeDid | xinu/bbb-xinu/system/ready.c:20-35 | key and priority of the process are the new one, it stands behind all keys at least as high and before the others, and the rest of the ready list keeps its order |
| KernelSched.ResortIsSort | xinu/bbb-xinu/system/sets.c:31-50 | inserting every process into the scratch list gives a permutation in descending order of the new priorities |
| KernelSched.ResortStable | xinu/bbb-xinu/system/sets.c:31-50 | processes of the same new priority keep their order |
| KernelSched.CoveredIff | xinu/bbb-xinu/system/sets.c:30-50 | when the loop takes the first c processes, the new ready list is a permutation of the old one, and queues still agree with states, exactly when c is its length |
| KernelSched.LeftOut | xinu/bbb-xinu/system/sets.c:30-50 | a process beyond those is ready but on no queue |
| KernelSched.CountCovers | xinu/bbb-xinu/system/sets.c:31-32 | when the 16-bit readycount is at least the length of the ready list, in terms of the counts that kill and suspend left over |
| KernelCount.PairedInv | xinu/bbb-xinu/system/suspend.c:34-37 | suspending and resuming a ready process leaves readycount one too high |
| KernelCount.CountTakesEveryValue | xinu/bbb-xinu/system/suspend.c:34-37 | so in reachable states readycount has any 16-bit value, 0 and values below the length included |
| KernelCount.CountReaches | xinu/bbb-xinu/system/suspend.c:34-37 | from initialisation a run of create, resched_cntl, resume and suspend reaches every 16-bit value of readycount with one process ready |
| KernelCount.SchedulerBreaks | xinu/bbb-xinu/system/queue.c:62-73 | so a run of allowed calls ends in a set_scheduler that leaves the queue table broken |
| Kernels.Kernel.SetScheduler | xinu/bbb-xinu/system/sets.c:15-62 | the ready list is the sort of the first readycount processes; when they are all, each has the priority setprio gives it, the list is in descending order of these and equals keep their order; nobody is lost exactly when the count covers a ready list that is not empty, and with a count of 0 ready and scratch list end in each other |
| Kernels.Kernel.Sysinit | xinu/bbb-xinu/system/initialize.c:138-268 | the invariant holds at the start and every queue is empty |
| Kernels.Kernel.Wait | xinu/bbb-xinu/system/wait.c:12-42 | the count falls; at 0 or below the queue of the semaphore is the old one with the caller at its end; no other queue of waiters, no sleeper and no message changes |
| Kernels.Kernel.Signal | xinu/bbb-xinu/system/signal.c:12-31 | the count rises; the first of the queue, if any, has left it and is ready or running, the others stay in order |
| Kernels.Kernel.Signaln | xinu/bbb-xinu/system/signaln.c:13-37 | the count rises by n; the first n of the queue, or all, have left it and are ready or running; rescheduling is deferred to the end |
| KernelSteps.ReleasesInOrder | xinu/bbb-xinu/system/signaln.c:28-34 | n signals make ready the first n waiting processes in order of arrival and add n to the count |
| Kernels.Kernel.Semreset | xinu/bbb-xinu/system/semreset.c:13-35 | the count is the new one and nobody waits |
| KernelSteps.Emptied | xinu/bbb-xinu/system/semreset.c:26-32 | they were made ready in order of arrival and no other queue but the ready list changed |
| Kernels.Kernel.Semdelete | xinu/bbb-xinu/system/semdelete.c:12-36 | the entry is free, nobody waits and no other semaphore changes |
| KernelSteps.Deleted | xinu/bbb-xinu/system/semdelete.c:22-33 | likewise in order; nobody waits on the freed semaphore |
| Kernels.Kernel.Semcreate | xinu/bbb-xinu/system/semcreate.c:14-50 | SYSERR exactly for a negative count or when every semaphore is in use; else a free one gets the count and nothing else changes |
| Kernels.Kernel.Send | xinu/bbb-xinu/system/send.c:13-41 | SYSERR for a bad process or one with a message; else the process has this very message, nobody else has another one than before, and a receiving process is ready, off the sleep queue if it was there |
| Kernels.Kernel.Receive | xinu/bbb-xinu/system/receive.c:16-23 | without a message the caller waits for one |
| Kernels.Kernel.ReceiveEnd | xinu/bbb-xinu/system/receive.c:24-27 | the message is returned and gone |
| Kernels.Kernel.Suspend | xinu/bbb-xinu/system/suspend.c:12-41 | a ready or running process is suspended and on no queue; readycount stays as it is; who suspends itself gives up the processor |
| Kernels.Kernel.SuspendEnd | xinu/bbb-xinu/system/suspend.c:42-44 | the priority returned is the one the process has when it runs again |
| Kernels.Kernel.Resume | xinu/bbb-xinu/system/resume.c:12-36 | only a suspended process is made ready; the result is its priority from before |
| Kernels.Kernel.Kill | xinu/bbb-xinu/system/kill.c:18-29 | SYSERR for a bad process or the null process; one process less is counted, and the last one halts the processor; else the parent has the id of the process for a message, unless it had one, which may switch the processor |
| Kernels.Kernel.KillEnd | xinu/bbb-xinu/system/kill.c:52-86 | the process leaves whichever queue its state names by then and is free; all others stay |
| Kernels.Kernel.Create | xinu/bbb-xinu/system/create.c:31-70 | SYSERR exactly without a stack, for a priority below 1 or when every entry is in use; else a free entry becomes a suspended process with the given priority and one more is counted |
| KernelRuns.FirstComeFirstServed | xinu/bbb-xinu/system/wait.c:33-40 | over every run of all calls, ticks and switches in which no waiter is killed: those released from a semaphore are a prefix of those that blocked on it, in the order of their calls, and the others are its queue |
| KernelRuns.SignalReleases | xinu/bbb-xinu/system/signal.c:25-28 | a signal releases one process if any waits, and whoever is released is ready or running |
| KernelRuns.MessageIsLastSent | xinu/bbb-xinu/system/send.c:24-37 | over every run a process has a message exactly if the last thing that concerned it was an accepted send to it, and it is the one sent; this is what receive and recvtime return |
| KernelRuns.SleepsOn | xinu/bbb-xinu/system/clkhandler.c:55-64 | over every run a sleeper has as many ticks left as it had less those that came, unless it is killed or gets the message it waits for |
| KernelRuns.WokenInTime | xinu/bbb-xinu/system/sleep.c:36-47 | who calls sleepms or recvtime sleeps for exactly the delay: the tick that ends it makes the caller ready or running |
| KernelRuns.StepDid | xinu/bbb-xinu/system/ready.c:14-37 | what each call does to queues, delays, messages and counts, and that all the others leave these as they are |
| KernelCalls.Wait | xinu/bbb-xinu/system/wait.c:12-42 | the call in place is one step of such a run |
| KernelCalls.Signal | xinu/bbb-xinu/system/signal.c:12-31 | likewise |
| KernelCalls.Signaln | xinu/bbb-xinu/system/signaln.c:13-37 | likewise |
| KernelCalls.Semreset | xinu/bbb-xinu/system/semreset.c:13-35 | likewise |
| KernelCalls.Semdelete | xinu/bbb-xinu/system/semdelete.c:12-36 | likewise |
| KernelCalls.Semcreate | xinu/bbb-xinu/system/semcreate.c:14-50 | likewise when it succeeds, no step otherwise |
| KernelCalls.Sleepms | xinu/bbb-xinu/system/sleep.c:29-52 | likewise |
| KernelCalls.Recvtime | xinu/bbb-xinu/system/recvtime.c:17-35 | likewise |
| KernelCalls.RecvtimeEnd | xinu/bbb-xinu/system/recvtime.c:39-46 | likewise; the result is the message that MessageIsLastSent is about, or TIMEOUT |
| KernelCalls.Tick | xinu/bbb-xinu/system/clkhandler.c:55-64 | likewise |
| KernelCalls.Resched | xinu/bbb-xinu/system/resched.c:14-73 | likewise |
| KernelCalls.Send | xinu/bbb-xinu/system/send.c:13-41 | likewise |
| KernelCalls.Receive | xinu/bbb-xinu/system/receive.c:16-23 | likewise |
| KernelCalls.ReceiveEnd | xinu/bbb-xinu/system/receive.c:24-27 | likewise; the result is the message that MessageIsLastSent is about |
| KernelCalls.Suspend | xinu/bbb-xinu/system/suspend.c:12-41 | likewise |
| KernelCalls.Resume | xinu/bbb-xinu/system/resume.c:12-36 | likewise |
| KernelCalls.Kill | xinu/bbb-xinu/system/kill.c:18-29 | likewise, a send of the process id to the parent |
| KernelCalls.KillEnd | xinu/bbb-xinu/system/kill.c:52-86 | likewise |
| KernelCalls.Create | xinu/bbb-xinu/system/create.c:31-70 | likewise when it succeeds, no step otherwise |
| KernelCalls.SetScheduler | xinu/bbb-xinu/system/sets.c:15-62 | likewise while the count covers a ready list that is not empty |
| KernelCalls.DeferStart | xinu/bbb-xinu/system/resched.c:83-90 | likewise |
| KernelCalls.DeferStop | xinu/bbb-xinu/system/resched.c:91-100 | likewise |
| PortNodes.PoolSend | xinu/bbb-xinu/system/ptsend.c:40-55 | moving the first free node to the tail of a port keeps the lists of nodes disjoint and complete |
| PortNodes.PoolRecv | xinu/bbb-xinu/system/ptrecv.c:37-44 | so does moving the first node of a port to the free list |
| PortNodes.PoolSplice | xinu/bbb-xinu/system/ptclear.c:36-37 | and splicing a whole message list into it |
| PortSpec.PortBounds | xinu/bbb-xinu/system/ptsend.c:29-35 | an allocated port holds at most its capacity, a receiver granted in this generation finds a message and a sender room, and what was taken is a prefix of what was linked |
| PortSpec.StaleInv | xinu/bbb-xinu/system/ptrecv.c:29-33 | a process overtaken by a reset or delete returns and touches no port, message or node |
| PortSpec.CapacityIs16Bit | xinu/bbb-xinu/system/ptcreate.c:35-39 | the first generation admits as many messages as every later one exactly when the count fits in 16 bits |
| PortRuns.RunInv | xinu/bbb-xinu/system/ptclear.c:21-48 | the invariant, with free and queued nodes adding up to the pool, in every state of every interleaving of senders, receivers, resets, deletions and creations |
| PortRuns.GenNeverFalls | xinu/bbb-xinu/system/ptclear.c:23 | the sequence number of a port never falls |
| PortRuns.ClearOvertakes | xinu/bbb-xinu/system/ptclear.c:21-23 | whoever is in a call when the port is cleared is overtaken |
| PortRuns.OvertakenStays | xinu/bbb-xinu/system/ptsend.c:30-35 | and stays so through every step until it runs, when it returns without effect |
| PortRuns.FirstInFirstOut | xinu/bbb-xinu/system/ptrecv.c:37-45 | over every run the messages handed out in one generation are a prefix of those that the calls of ptsend which came to link in it were given as arguments, and the others are in the port, in that order |
| PortRuns.PhaseIsCall | xinu/bbb-xinu/system/ptsend.c:22-55 | over every run a process in the middle of a call is where the arguments of that call, the port and generation at its start, and the grant it had meanwhile put it |
| PortRuns.FirstComeFirstServed | xinu/bbb-xinu/system/ptsend.c:23-35 | over every run the senders granted in one generation are a prefix of those that had to wait in it, in the order of their calls, and the others wait in that order; the same for receivers |
| PortRuns.ClearedAs | xinu/bbb-xinu/system/ptclear.c:48-49 | what ends as a reset leaves the port allocated, a deletion free |
| Ports.PortTable.Ptinit | xinu/bbb-xinu/system/ptinit.c:16-45 | all ports are free and the nodes form the free list in address order |
| Ports.PortTable.Ptcreate | xinu/bbb-xinu/system/ptcreate.c:12-46 | on the table: a free port is allocated with the count as its room, 16 bits of it kept, no messages, and the next generation, and no other port changes; SYSERR for a negative count or when no port is free |
| Ports.PortTable.Ptsend | xinu/bbb-xinu/system/ptsend.c:20-58 | SYSERR for a port that is not allocated; with room the message is last in the port and a waiting receiver is granted; else the caller waits; each a step of a run |
| Ports.PortTable.PtsendResume | xinu/bbb-xinu/system/ptsend.c:30-58 | a granted sender goes on exactly when the port is in the generation it recorded |
| Ports.PortTable.Ptrecv | xinu/bbb-xinu/system/ptrecv.c:19-47 | as ptsend; the result is the message that was linked first |
| Ports.PortTable.PtrecvResume | xinu/bbb-xinu/system/ptrecv.c:29-47 | as for senders; in the same generation there is a message for it |
| Ports.PortTable.PtclearBegin | xinu/bbb-xinu/system/ptclear.c:21-23 | ptreset or ptdelete: the port is in limbo and in the next generation |
| Ports.PortTable.PtclearSend | xinu/bbb-xinu/system/ptclear.c:24-45 | every message of the port is handed to the disposal function in order, the nodes are on the free list and every waiting sender is released |
| Ports.PortTable.PtclearRecv | xinu/bbb-xinu/system/ptclear.c:40-47 | every waiting receiver is released |
| Ports.PortTable.PtclearEnd | xinu/bbb-xinu/system/ptclear.c:48-49 | on the table: the port is allocated after a reset and free after a deletion, and no other entry changes |
| RwBlocker.TriedInv | xinu/bbb-xinu/system/rwblocker.c:161-233 | a try by a process outside keeps the count, the queue length and the rule that a waiter behind readers sees a writer first |
| RwBlocker.SignalledInv | xinu/bbb-xinu/system/rwblocker.c:280-333 | so does a signal by a holder |
| RwBlocker.InvIsExclusive | xinu/bbb-xinu/system/rwblocker.c:161-183 | a writer is inside alone |
| RwBlocker.LeftCounts | xinu/bbb-xinu/system/rwblocker.c:271-286 | the count stays right when a process leaves exactly when its flag still says in which role it entered |
| RwBlocker.IdleWriter | xinu/bbb-xinu/system/rwblocker.c:161-183 | a writer that finds nobody inside and nobody waiting enters if and only if the blocker was created with count 0 |
| RwBlocker.ReaderEnters | xinu/bbb-xinu/system/rwblocker.c:213-229 | a reader that tries enters at once exactly when no writer is inside and nobody waits, else it is last in the queue |
| RwBlocker.NobodyInVain | xinu/bbb-xinu/system/rwblocker.c:288-333 | when nobody is inside a blocker created with count 0 nobody waits, and behind readers a writer is first |
| RwbTable.WithView | xinu/bbb-xinu/system/rwblocker.c:161-183 | a call on one blocker by a process that uses no other changes nothing for the others |
| RwbTable.TryKeepsOrder | xinu/bbb-xinu/system/rwblocker.c:161-233 | with the shared flags a try keeps the whole table in order exactly when the flag of the caller is 0 |
| RwbTable.SignalKeepsOrder | xinu/bbb-xinu/system/rwblocker.c:271-333 | a signal by a holder does |
| RwbRuns.RunIsExclusive | xinu/bbb-xinu/system/rwblocker.c:141-341 | over every run on the table with atomic calls: each blocker has a writer alone or no writer, its count says which, and processes enter in the order of their calls |
| RwbRuns.AskedInOrder | xinu/bbb-xinu/system/rwblocker.c:161-233 | the order of arrival is that of the calls: each try puts its caller at the end, and nothing else does |
| RwbRuns.NestedUse | xinu/bbb-xinu/system/rwblocker.c:213-285 | a writer of one blocker that enters another as a reader and then signals the first leaves its count two below its readers |
| RwbRuns.NestedRun | xinu/bbb-xinu/system/rwblocker.c:213-333 | a reachable run in which that lets a writer in beside two readers |
| RwbCalls.Rwbtab.Rwbcreate | xinu/bbb-xinu/system/rwblocker.c:16-53 | a free entry with its count; SYSERR for a negative count or a full table |
| RwbCalls.Rwbtab.RwbTryread | xinu/bbb-xinu/system/rwblocker.c:193-234 | SYSERR for a bad id; else the caller is inside as a reader or queued, and the table is in order exactly if it used no blocker |
| RwbCalls.Rwbtab.RwbTrywrite | xinu/bbb-xinu/system/rwblocker.c:141-187 | the same for a writer, who is then inside alone |
| RwbCalls.Rwbtab.Signalrwb | xinu/bbb-xinu/system/rwblocker.c:250-341 | the caller is out and those who may enter are in, as a step of such a run |
| RwbSwitch.RunConserved | xinu/bbb-xinu/system/rwblocker.c:300-326 | when ready may switch inside the signal, over every interleaving: first come first served, and the count is readers less writers but for the releases not counted yet |
| RwbSwitch.BreaksIff | xinu/bbb-xinu/system/rwblocker.c:161-326 | when ready may switch: from a state with exclusion and the count right up to pending releases, exactly which calls, tries, signals and continuations, let somebody in beside others |
| RwbSwitch.RunExclusiveIff | xinu/bbb-xinu/system/rwblocker.c:161-326 | a run has exclusion throughout if and only if none of its calls is such a one |
| RwbSwitch.StrandsIff | xinu/bbb-xinu/system/rwblocker.c:161-326 | exactly which calls lead to nobody inside, nobody about to count and somebody waiting |
| RwbSwitch.RunStuckIff | xinu/bbb-xinu/system/rwblocker.c:161-326 | a run ends so if and only if one of its calls was such a one |
| RwbSwitch.WriterEverIn | xinu/bbb-xinu/system/rwblocker.c:16-30 | some run of the calls lets a writer in if and only if the blocker was created with count 0 |
| RwbSwitch.ReaderSlipsIn | xinu/bbb-xinu/system/rwblocker.c:215-229 | what a try finds in such a state: a reader is let in beside a writer exactly when that many releases are not counted yet |
| RwbSwitch.WriterSlipsIn | xinu/bbb-xinu/system/rwblocker.c:168-183 | the same for a writer that tries |
| RwbSwitch.DeferredIsExclusive | xinu/bbb-xinu/system/rwblocker.c:300-326 | if rescheduling is deferred throughout every signal there is exclusion at every moment, also inside a signal |
| RwbSwitch.FinishedIsSignalled | xinu/bbb-xinu/system/rwblocker.c:280-333 | a signal carried to its end in small steps is the atomic one |
| RwbSwitch.LetInBesideWriter | xinu/bbb-xinu/system/rwblocker.c:302-305 | without deferral: a reader or a second writer let in beside the writer just released |
| RwbSwitch.LetInBesideReader | xinu/bbb-xinu/system/rwblocker.c:302-319 | without deferral: the late count of a writer that has left lets another one in beside a reader |
| RwbSwitch.LetInBySignal | xinu/bbb-xinu/system/rwblocker.c:280-305 | without deferral: a signal of a reader lets a writer in beside another reader, in a run without any such try |
| RwbSwitch.WriterLeftWaiting | xinu/bbb-xinu/system/rwblocker.c:302-305 | without deferral: nobody inside, a writer queued |
| RwbSwitch.StuckStays | xinu/bbb-xinu/system/rwblocker.c:161-233 | and then nobody ever enters again |
| Qsort.Qsort | xinu/bbb-xinu/lib/qsort.c:23-27 | sorted by any total preorder, a permutation of the input, with recursion no deeper than the base-2 logarithm of the count |
| Qsort.Partition | xinu/bbb-xinu/lib/qsort.c:44-105 | terminates; less, equal and greater than the middle element, in place and as a permutation |
| Qsort.Round | xinu/bbb-xinu/lib/qsort.c:89-101 | one side is sorted recursively, the smaller one, and the rest is left for the next turn |
| Qsort.BothWrong | xinu/bbb-xinu/lib/qsort.c:80-83 | the exchange of an element on each side keeps the partition |
| Qsort.HighLess | xinu/bbb-xinu/lib/qsort.c:74-79 | so does the three-way exchange that moves the middle up |
| Qsort.LowGreater | xinu/bbb-xinu/lib/qsort.c:104-105 | and the one that moves it down |
| Crc32.MakePoly | xinu/bbb-xinu/compile/uboot-tool/crc32.c:57-63 | the pattern has a one for exactly the terms of the polynomial |
| Crc32.MakeCrcTable | xinu/bbb-xinu/compile/uboot-tool/crc32.c:51-73 | every entry is what eight steps of the shift register make of its index |
| Crc32.TableStep | xinu/bbb-xinu/compile/uboot-tool/crc32.c:149 | eight steps of the register are one table lookup |
| Crc32.BitsEnter | xinu/bbb-xinu/compile/uboot-tool/crc32.c:149 | the bits of a byte fed one by one are the byte added at once |
| Crc32.Do8 | xinu/bbb-xinu/compile/uboot-tool/crc32.c:149-152 | eight bytes in order through the register |
| Crc32.Crc32 | xinu/bbb-xinu/compile/uboot-tool/crc32.c:155-177 | for every buffer the result is that of the shift register fed bit by bit, section 8 of RFC 1952 |
| Crc32.CrcOfConcatenation | xinu/bbb-xinu/compile/uboot-tool/crc32.c:155-177 | running it on a and then on b is running it on a followed by b |
| Crc32.ResidueIff | xinu/bbb-xinu/compile/uboot-tool/crc32.c:155-177 | a message followed by a word, lowest byte first, has the checksum 0x2144DF1C if and only if the word is the checksum of the message |
| Crc32.CheckValue | xinu/bbb-xinu/compile/uboot-tool/crc32.c:155-177 | the checksum of the digits 1 to 9 is 0xCBF43926 |
| Checksum.OnesSumIsReduced | xinu/bbb-xinu/net/ip.c:297-308 | adding back every carry at once is the same as reducing the whole sum |
| Checksum.Ipcksum | xinu/bbb-xinu/net/ip.c:286-316 | the loop over a header computes the single-fold value of the sum of its words |
| Checksum.IcmpCksum | xinu/bbb-xinu/net/icmp.c:359-387 | the same for a message of any length, odd and negative ones included |
| Checksum.IpIsRfc1071 | xinu/bbb-xinu/net/ip.c:305-315 | the header checksum is that of section 1 of RFC 1071, all ones mapped to 0, exactly when the fold has no carry of its own |
| Checksum.IcmpIsRfc1071 | xinu/bbb-xinu/net/icmp.c:384-386 | the message checksum is that of RFC 1071 exactly then |
| Checksum.IpAcceptsOwn | xinu/bbb-xinu/net/ip.c:305-315 | a header completed by its own checksum is accepted, second carry or not |
| Checksum.IcmpAcceptsOwn | xinu/bbb-xinu/net/icmp.c:384-386 | a message completed by its own is accepted exactly without a second carry |
| Checksum.IpAcceptsWhich | xinu/bbb-xinu/net/ip.c:21-25 | the headers that ip_in accepts: valid by RFC 1071, all zero, or of sum 1 after a dropped carry |
| Checksum.IcmpAcceptsWhich | xinu/bbb-xinu/net/ip.c:49-54 | the messages it accepts are exactly those valid by RFC 1071 |
| Checksum.IpOut | xinu/bbb-xinu/net/ip.c:228-263 | the packet in network order with both checksums |
| Checksum.IpIn | xinu/bbb-xinu/net/ip.c:21-60 | what becomes of a packet, and the packet in host order |
| Checksum.SentArrives | xinu/bbb-xinu/net/ip.c:228-263 | of the packets ip_out makes, ip_in refuses exactly the messages of 4 bytes or more with a second carry, those of 1 to 3 bytes but for the byte values named, and those of none |
| Checksum.SentIsDelivered | xinu/bbb-xinu/net/ip.c:323-348 | the others arrive as they were sent, byte for byte, but for the checksums |
| Checksum.HeaderOnWire | xinu/bbb-xinu/net/ip.c:323-348 | length, identifier, fragment word and both addresses are on the wire, highest byte first, the values they have in memory |
| Checksum.MessageOnWire | xinu/bbb-xinu/net/ip.c:228-255 | so are identifier and sequence number of ICMP messages and ports and length of UDP datagrams, whose checksum is 0; no other byte of the message moves |
| Checksum.HeaderForOthers | xinu/bbb-xinu/net/ip.c:259-263 | a receiver that follows RFC 1071 accepts the header exactly without a second carry |
| Checksum.HeaderCarryHappens | xinu/bbb-xinu/net/ip.c:259-263 | a UDP header of ip_out that such a receiver refuses |
| Checksum.EmptyIsRefused | xinu/bbb-xinu/net/ip.c:50-54 | a message of length 0 or less is never accepted |
| Checksum.SecondCarryHappens | xinu/bbb-xinu/net/icmp.c:384-386 | an echo request that its own checksum makes unacceptable |

## Left out

- Lfs.LocalFs.Lflputc, and the other writing calls: free blocks are a precondition, because the
  source panics without them; disk reads succeed.
- Lfs.LocalFs.Lfsopen: the mode arrives as parsed; `lfgetmode` is not part of this model, nor is
  the mode in read and write, which the source never looks at.
- Lfs.LocalFs.Lfscreate: at least one index block and one data sector, which the source does not
  test.
- File calls are atomic; the source holds mutexes with interrupts on, and lfsopen looks for a free
  device and for an open duplicate before it takes the mutex, so that two opens at the same time
  may choose the same device.
- Heap.MemList.Freemem: for ranges that do not wrap around in 32 bits.
- Heap.MemList.Freestk: for such ranges, and not for those it accepts although they stick out of
  the heap.
- HeapCalls.Client.Freestk: a stack whose length is a multiple of 16; for the others see
  `HeapRuns.FreestkRange`.
- Kernels.Kernel.Wait: the caller is the running process and not the null process, which must never
  block; likewise for the next three.
- Kernels.Kernel.Receive: the same callers.
- Kernels.Kernel.Recvtime: the same callers.
- Kernels.Kernel.Sleepms: the same callers, and delays below 2^31, for which the key of insertd is the
  delay.
- Kernels.Kernel.Tick: only this subtraction wraps in 32 bits; other keys of the sleep queue and
  `scount` are unbounded.
- Kernels.Kernel.Newqueue: what lies behind the table, which the call for the id NQENT overwrites.
- Kernels.Kernel.Create: the stack and its frame, and that a failed call keeps the stack.
- Kernels.Kernel.Kill: closing of devices and freeing of the stack.
- Kernels.Kernel.KillEnd: no process waits on a read-write blocker; queues and states of those
  that do are only in the Rwb models, so their ten queues stay empty in the kernel model.
- KernelRuns.FirstComeFirstServed: runs in which no process that waits on this semaphore is killed.
- KernelRuns.SleepsOn: runs without a recvtime(0) that has stalled the sleepers, for which see
  `KernelTime.ZeroDelayStalls`.
- KernelRuns.WokenInTime: the same runs.
- KernelSpec.StatesAndQueues: holds for that reason without waiters on read-write blockers.
- Ports.PortTable.Ptsend: a free node is a precondition when the port has room, because the
  source panics without one; `ptseq` does not wrap at 2^32.
- Ports.PortTable.Ptcreate: semcreate succeeds; the semaphores of ports and the queues of blockers are
  lists of their own, not the queues of the kernel model.
- Ports.PortTable.PtclearSend: what the disposal function does with a message.
- RwbCalls.Rwbtab.Signalrwb: only holders signal.
- Deletion and reset of read-write blockers, and killing of their users.
- RwbSwitch.RunConserved: one blocker, whose users use no other.
- Crc32.Crc32: for the table that make_crc_table builds; the constant table that is compiled by
  default is taken to be that one.
- Checksum.IpOut: the Ethernet header and the write to the device; a message length of at most 1480
  bytes, beyond which the source reads past the packet.
- Checksum.IpIn: the choice of destination; the same lengths.
- Checksum.SentArrives: the same lengths.
- Context switch, interrupts, devices, the network protocols above IP, the shell, text output
  and CPU-time accounting.
