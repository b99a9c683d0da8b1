# Verification of the concurrent and stateful programs of the system calls guide

The guide explains POSIX and Linux system calls with complete C programs. This project
models the programs in which something can go wrong between two calls (threads,
processes, signals, partial transfers, shared tables) and proves what they promise for
every input, every schedule and every kernel that keeps to the stated rules.

`dafny verify dfyconfig.toml` checks everything.

## How it is modelled

Programs whose point is interleaving are transition systems: a state, the actions
enabled in it, what each action does, and runs as lists of actions. A run is any list
whose actions are enabled one after the other, so a lemma about runs speaks about every
scheduler, and the scheduler also chooses whom a wakeup reaches. Code that updates one
object step by step is a class or a method with loops over arrays and fields.

| module | what it models | form |
|---|---|---|
| `Ring` | the five protected fields of `queue_t`, the critical sections of push and pop | class over an array, refining a sequence |
| `QueueProgram`, `QueueTermination` | producers, consumers, one mutex, two condition variables, shutdown | transition system |
| `Locks`, `LockProgress` | the spinlock and the futex lock around a counter incremented by load and store | transition system |
| `LockOrder` | straight-line programs of lock and unlock calls over any number of mutexes | transition system |
| `RacyCounter` | the same counter without a lock | transition system |
| `Descriptors`, `DescriptorFacts`, `DescriptorKernel`, `SharedOffsets` | descriptor slots, open file descriptions, files; first without counts, with what each call means slot by slot and byte by byte, then with counts | specification on values, class with counts, runs of calls |
| `Redirection`, `ThreeLevels` | the save-redirect-restore demo with its stdio stream, and the dup and second-open demo with calls that may fail | methods on the class |
| `CopyOnWrite` | fork with page tables, counted frames and page faults, against full copying | class refining a specification on values |
| `Pipeline` | `ls -l \| wc -l`: three processes, one pipe, three descriptor tables | transition system |
| `IoCalls`, `WriteLoops`, `ReadLoops`, `FileCopy`, `EchoServer` | read and write loops, the copy program, the echo connection | methods over arrays, against a scripted kernel |
| `EdgeDrain` | edge-triggered accept loop | transition system, and both loops as methods of a class that records its run |
| `Reaper` | SIGCHLD, its pending and blocked bits, and the waitpid loop | transition system |
| `SeccompFilter` | the allow-list pattern as a compiler to classic BPF, and the filter machine | functions |
| `Sums`, `Slots`, `Bytes`, `Options` | sums over threads, slots that share counted things, byte strings | functions and lemmas |

The state-machine definitions follow the code one action per shared step:
`QueueProgram.ExecProducer` and `ExecConsumer` (05-threads/04-condition-variables.md:203-255),
`Locks.Exec` (05-threads/05-atomics-and-futex.md:154-202), `RacyCounter.Exec`
(examples/shm_demo.c:167-171), `Pipeline.ParentExec`, `WriterExec` and `ReaderExec`
(examples/pipe_demo.c:117-158), `EdgeDrain.Exec`
(07-io-performance/02-epoll-deep-dive.md:251-295), `Reaper.Exec`
(examples/signal_demo.c:33-36). `CopyOnWrite.Eager` and `Descriptors.Table` are the
independent, simple specifications that the classes are proved against.

`QueueProgram.Trace` and the classes speak of the same ring: both use `Ring.Store` and
`Ring.Take`, which `Ring.Queue` implements on an array. `Trace` asks for `Safe` in each
state it leaves, because the store and the take are only defined there;
`RingNeverMisused` shows that every reachable state is `Safe`, so no run is cut short.

### What the environment may do

* Memory is sequentially consistent. A lock operation, a compare-and-swap, a load and a
  store are one step each; anything may happen in between.
* `pthread_cond_wait` releases the mutex and goes to sleep in one step. A signal wakes
  one sleeper if there is one, a broadcast all. Sleepers (also on a futex) may be woken
  unasked, a bounded but arbitrary number of times; without a bound a kernel that only
  ever wakes and re-sleeps one thread would keep any run going.
* Descriptors inherited by fork share the offset with the parent
  (00-foundations/05-file-descriptors.md:118-128). `dup`, `open` and `pipe` take the
  lowest free descriptor (99-reference/syscall-cheatsheet.md:58).
* A pipe has any capacity of at least one byte; a read or a write moves any positive
  number of bytes that fits. Reading an empty pipe blocks while a write end is open
  anywhere and ends the input otherwise; writing without a read end kills the writer.
  The two children of the pipeline are an arbitrary finite writer and a reader that
  reads to the end of its input; either exec may fail.
* A read or write may move less than asked for, be interrupted, or fail, as an arbitrary
  finite list of replies says; after the list has run out calls complete in full.
* An edge is posted when a connection arrives on an empty queue; when one arrives on a
  queue that is not empty the kernel may post another edge or not.
* A stdio stream writes a finished line at once when it is line buffered, writes nothing
  while what is pending fits its buffer when it is fully buffered, and otherwise writes
  any part of it; exit writes the rest.
* A pending SIGCHLD is one bit, and the signal is blocked while its handler runs.

### Where the code does not do what the text around it promises

* The copy program retries interrupted writes but not interrupted reads
  (02-file-io/02-read-write.md:253,261), although the text asks for a loop in both cases
  (lines 58-59). `CopySucceedsIff` gives the exact condition for success; the
  destination is a prefix of the source in any case.
* When a write of the echo server fails for good, the loop drops the rest of that buffer
  and goes on reading (06-sockets/02-tcp-sockets.md:204-210). If a later write works the
  peer sees a gap (`EchoGap`). `EchoExact` proves that the echo is what was read if and
  only if no used reply to a write was a hard failure.
* When accept fails other than by EAGAIN or EINTR, the drain stops
  (07-io-performance/02-epoll-deep-dive.md:257-258) although "drain until EAGAIN" is
  mandatory (lines 115-123). Connections still queued then wait, with the program asleep,
  until a later arrival happens to post an event: `StrandedUntilEdge` and
  `EdgeEndsStranding`. `NothingStranded` gives the exact condition on the run.
* The filter length is cast to `unsigned short`
  (08-kernel-interfaces/06-seccomp-and-security.md:104), and the kernel takes at most
  4096 instructions (BPF_MAXINSNS). `InstallsIffShort` proves that only the second limit
  decides: the cast never makes a longer list installable.
* The redirection demo prints with printf between the two dup2 calls and does not flush
  (examples/file_operations.c:120-123), nor before them. `RedirectAndRestore` proves that
  the file holds its lines exactly when standard output is line buffered and nothing is
  pending. When the demo's own output is a pipe or a file, its stream is fully buffered
  and holds all earlier lines too; then nothing reaches the file (`KeptBack` is a case),
  and everything goes to the restored output (`RedirectToExit`).
* 01-processes/02-fork-and-clone.md:87-89 says that offsets are independent after fork,
  and 02-file-io/04-dup-and-redirection.md:35 that dup returns a descriptor not below
  the old one. Both contradict other chapters and the programs, which are followed here.

## Model

| member | source | states |
|---|---|---|
| `Ring.StoreAppends` | 05-threads/04-condition-variables.md:211-213 | writing at `tail` and advancing it modulo the capacity appends to the contents read from `head`, and keeps `tail = (head + count) mod capacity` |
| `Ring.TakeDropsFront` | 05-threads/04-condition-variables.md:226-228 | reading at `head` and advancing it removes exactly the oldest value |
| `Ring.Queue.constructor` | 05-threads/04-condition-variables.md:189-194 | a new queue is well formed, empty and not shut down |
| `Ring.Queue.PushHolding` | 05-threads/04-condition-variables.md:205-213 | with the mutex held a push waits iff full and open, is dropped iff shut down, else appends its value; in the first two cases nothing changes |
| `Ring.Queue.PopHolding` | 05-threads/04-condition-variables.md:220-228 | with the mutex held a pop waits iff empty and open, reports the end iff empty and shut down, else hands out the oldest value |
| `QueueProgram.RingNeverMisused` | 05-threads/04-condition-variables.md:203-232 | for any number of threads and any schedule one thread at most is inside the mutex, and store and take find room or an item |
| `QueueProgram.NoLostWakeupKept` | 05-threads/04-condition-variables.md:203-232 | every step keeps: while a consumer sleeps, items do not outnumber the threads woken, re-testing, or about to signal (and likewise for free slots) |
| `QueueProgram.ShutdownRulesKept` | 05-threads/04-condition-variables.md:234-244 | every step keeps: after shutdown only a broadcast still to come leaves a sleeper, nobody stores, and a consumer leaves only from an empty queue |
| `QueueProgram.NoWakeupLost` | 05-threads/04-condition-variables.md:203-255 | in every reachable state with the mutex free, while a consumer sleeps the items do not exceed the consumers woken and not yet re-locked; the same for producers and free slots; after shutdown nobody sleeps |
| `QueueProgram.NoDeadlock` | 05-threads/04-condition-variables.md:203-255 | with at least one thread of each kind, every reachable state with an unfinished thread has an enabled step, without help from unasked wakeups |
| `QueueProgram.FirstInFirstOut` | 05-threads/04-condition-variables.md:203-232 | under every interleaving accepted pushes are the popped values followed by the ring contents; each producer's accepted values are 1, 2, ... without gaps |
| `QueueProgram.AllDelivered` | 05-threads/04-condition-variables.md:234-266 | when all threads are done, popped equals accepted, some producer got all its items in, and one producer delivers exactly 1..items |
| `QueueProgram.WakesWithoutSignal` | 05-threads/04-condition-variables.md:77-88 | the schedules include returns of a wait that nobody asked for: a consumer can be awake again with nothing ever pushed |
| `QueueTermination.EveryStepDrops` | 05-threads/04-condition-variables.md:203-255 | a natural-number measure over program counters, queued items and unasked wakeups drops at every step of every thread |
| `QueueTermination.EveryScheduleEnds` | 05-threads/04-condition-variables.md:234-266 | every schedule ends, within an explicit bound |
| `QueueTermination.EveryScheduleEndsWell` | 05-threads/04-condition-variables.md:257-266 | where a schedule can go no further all threads have finished and everything accepted has been delivered |
| `Locks.WordMeansHeld` | 05-threads/05-atomics-and-futex.md:154-161 | for both locks: the word is 0 or 1, and 1 iff exactly one thread holds the lock |
| `Locks.RefinesAtomicLock` | 05-threads/05-atomics-and-futex.md:154-202 | every step of either lock is an acquire, a release or no step of an indivisible lock |
| `Locks.ExactCount` | 05-threads/03-mutexes-and-rwlocks.md:122-146 | stored increments plus increments still to store are always threads times rounds, so every complete run ends with exactly that count although load and store are separate |
| `Locks.CountKept` | examples/threads_demo.c:30-37 | one step of the locked increment loop keeps that sum |
| `Locks.NoSleeperStranded` | 05-threads/05-atomics-and-futex.md:190-202 | with the word free and a thread asleep, an unlocker is between its store and its wake or an awake thread is in the lock loop |
| `Locks.WakesWhileHeld` | 05-threads/05-atomics-and-futex.md:190-197 | and a futex waiter can be back at its compare-and-swap while the lock is held |
| `LockProgress.NeverDeadEnd` | 05-threads/05-atomics-and-futex.md:154-202 | from every reachable state of either lock all threads can be driven to the end |
| `LockProgress.FutexAlwaysEnds` | 05-threads/05-atomics-and-futex.md:190-202 | every schedule of the futex lock ends, and where it can go no further all threads are done and no increment is missing |
| `LockProgress.SpinDependsOnScheduler` | 05-threads/05-atomics-and-futex.md:154-173 | the spinlock has unfinished runs of every length: it burns steps while the scheduler keeps running the waiter |
| `LockOrder.NoWaitCycle` | 05-threads/03-mutexes-and-rwlocks.md:191-203 | if every thread locks in increasing order, no reachable state has a wait cycle of any length |
| `LockOrder.OrderedNeverStuck` | 05-threads/03-mutexes-and-rwlocks.md:201-211 | under the rule some unfinished thread can always step |
| `LockOrder.OppositeOrdersDeadlock` | 05-threads/03-mutexes-and-rwlocks.md:195-199 | without it the two-thread example reaches a state in which each waits for the other and nobody can step |
| `RacyCounter.FinalBounds` | examples/shm_demo.c:163-194 | at least two unlocked increments per process: every complete run ends between 2 and the full count |
| `RacyCounter.FinalValues` | examples/shm_demo.c:163-194 | for any numbers of processes and increments, exactly the values from a least one to the full count can come out; the least is 2 for at least two processes with at least two increments each, 1 for one increment each, and the full count for a process that is alone |
| `DescriptorKernel.Kernel.FindLowestFree` | 99-reference/syscall-cheatsheet.md:58 | the search finds the lowest free descriptor of the process |
| `DescriptorKernel.Kernel.Open` | 00-foundations/05-file-descriptors.md:130-135 | open gives a new description at offset 0 in the lowest free slot, or fails and changes nothing; counts stay exact |
| `DescriptorKernel.Kernel.Dup` | 02-file-io/04-dup-and-redirection.md:40-42 | dup points one more slot at the same description and counts it |
| `DescriptorKernel.Kernel.Dup2` | 02-file-io/04-dup-and-redirection.md:36-37 | dup2 closes the target slot first, also when source and target are the same or share a description; counts stay exact |
| `DescriptorKernel.Kernel.Close` | 02-file-io/01-open-close.md:135-140 | close empties the slot, lowers the count, and frees the description exactly when no slot in any process points at it |
| `DescriptorKernel.Kernel.Fork` | 00-foundations/05-file-descriptors.md:118-128 | the child has exactly the parent's descriptor numbers, each at the same description; nobody else's slots change, no description is added or moved, and each count grows by the number of parent slots that point there |
| `DescriptorKernel.Kernel.Exit` | 02-file-io/01-open-close.md:135-140 | exit closes every descriptor of the process and nothing else |
| `DescriptorKernel.DropRefines` | 02-file-io/01-open-close.md:131-140 | counting down and freeing at zero is the same as keeping exactly the descriptions some slot points at |
| `DescriptorFacts.ReadDelivers` | 00-foundations/05-file-descriptors.md:118-128 | a read through an open descriptor delivers, byte for byte, what the file holds from the shared offset on: as much as is asked for and there, nothing only at or past the end; it moves this offset by that much and nothing else |
| `DescriptorFacts.WriteStores` | 02-file-io/03-seek-and-offsets.md:23-26 | a write puts all its bytes at the shared offset of its own file, with zeros in a gap and every other byte of every file kept, and moves this offset behind them |
| `DescriptorFacts.Dup2Replaces` | 02-file-io/04-dup-and-redirection.md:36-42 | afterwards the target number points at the source's description, other slots are as before, and exactly the descriptions some slot points at are left; onto itself it changes nothing |
| `DescriptorFacts.CloseRemoves` | 02-file-io/01-open-close.md:135-140 | close takes away this slot only, and of the descriptions only one that no slot points at any more |
| `DescriptorFacts.ForkInherits` | 00-foundations/05-file-descriptors.md:118-128 | the same of the specification of fork: the child's slots are the parent's, all other slots and all descriptions are as before |
| `DescriptorFacts.ExitRemoves` | 02-file-io/01-open-close.md:135-140 | no slot of the process that exits is left, every other slot is kept, and exactly the descriptions some slot points at are left |
| `Redirection.RestoredState` | examples/file_operations.c:116-126 | on tables: dup, open, dup2, close, a write, dup2 and close add up to the table before, with the data in the file; if the file could not be opened it is as if the data had gone to the old output |
| `Redirection.WriteTwice` | 02-file-io/03-seek-and-offsets.md:23-26 | two writes in a row through one descriptor are one write of both, at any offset, also past the end of the file |
| `Redirection.PrintAll` | examples/file_operations.c:120-121 | prints through a stream are one write of the part that has left it; the rest is pending, in order |
| `Redirection.PrintRedirected` | examples/file_operations.c:114-126 | save, redirect, print, restore: every slot and every count is as before, for any stream and any earlier pending text; the file holds exactly what left the stream in between |
| `Redirection.RedirectAndRestore` | examples/file_operations.c:114-126 | finished lines that fit the buffer with what is pending are what the file holds exactly when the stream is line buffered and had nothing pending |
| `Redirection.OrderlySent` | examples/file_operations.c:120-121 | the same of the text that leaves the stream, for any stream and any pending text |
| `Redirection.RedirectToExit` | examples/file_operations.c:114-148 | what the stream kept back goes to the restored output, before the later prints, at the latest at exit; no byte is lost or doubled |
| `ThreeLevels.Run` | 00-foundations/05-file-descriptors.md:245-303 | whichever call fails or moves less than asked, slots, descriptions and counts are as before at the end and the file holds a first part of the data; whatever is reported is: nothing at the shared end, all data after rewinding through the dup, all data through the second open; without faults all three are reported |
| `SharedOffsets.ReadsAreContiguous` | 00-foundations/05-file-descriptors.md:118-136 | over any run of reads, dups, closes, forks, exits and opens, the reads through one description concatenate to one stretch of the file from its offset on, and nothing else moves the offset |
| `SharedOffsets.ReadsDeliverAll` | 00-foundations/05-file-descriptors.md:118-136 | over any such run the reads through one description, by whatever descriptors and processes, deliver in total the smaller of what they ask for and what was left; if they ask for enough they collect the whole rest of the file |
| `SharedOffsets.ApplyActs` | 00-foundations/05-file-descriptors.md:118-136 | what each call of a run does to the slots: dup adds the lowest free one at the same description, dup2 the named one, fork all of the parent's to the child, open one at a new description at offset 0; close removes one, exit all of the process |
| `SharedOffsets.GoneStaysGone` | 02-file-io/01-open-close.md:131-140 | a released description is never read through or pointed at again |
| `SharedOffsets.CallAll` | 02-file-io/01-open-close.md:123-140 | the counting kernel follows the specification over any such run, with exact counts throughout |
| `Slots.AcquiredConserved` | 02-file-io/04-dup-and-redirection.md:40-41 | one slot more: each count is still the number of slots pointing there |
| `Slots.ReleasedConserved` | 02-file-io/01-open-close.md:131-132 | one slot less: the count goes down, or the thing goes away with its last slot |
| `Slots.ForkedRefs` | 02-file-io/04-dup-and-redirection.md:40-41 | fork adds to the references of a thing the number of parent slots that point at it |
| `CopyOnWrite.Memory.Fork` | 01-processes/02-fork-and-clone.md:52-62 | looks like a full copy to both processes, yet no frame is copied or allocated: the child maps the parent's frames and all pages of the parent become read-only |
| `CopyOnWrite.Memory.CopyPage` | 01-processes/02-fork-and-clone.md:57-60 | the fault allocates exactly one frame, repoints exactly this page to it and makes it writable; nobody sees a difference |
| `CopyOnWrite.Memory.Write` | 01-processes/02-fork-and-clone.md:57-60 | in the fields: a write to a mapped page changes exactly that byte as this process sees it, and every other byte of every mapped page of every process is as before; it allocates a frame exactly when it hits a read-only page; the view follows eager copying |
| `CopyOnWrite.Memory.Read` | 01-processes/02-fork-and-clone.md:60 | a read returns the byte stored at that offset of the frame the page maps to, or -1, and so what a full copy would hold |
| `CopyOnWrite.Memory.Exit` | 01-processes/02-fork-and-clone.md:60 | exit unmaps every page of the process, frees frames with their last mapping, and leaves other processes' pages |
| `CopyOnWrite.Memory.RunAll` | 01-processes/02-fork-and-clone.md:52-62 | over any run of map, read, write, fork and exit every read returns what eager copying would return, and the counts stay exact |
| `CopyOnWrite.ReadAfterCall` | 01-processes/02-fork-and-clone.md:52-62 | what any process reads at any place after any call, by cases, in terms of reads before: the byte written there last, zeros in a new page, the parent's byte in a new child, nothing after exit, and no change anywhere else |
| `CopyOnWrite.WritableMeansAlone` | 01-processes/02-fork-and-clone.md:55 | a frame with more than one mapping is never writable |
| `CopyOnWrite.CopyRefines` | 01-processes/02-fork-and-clone.md:57 | unmapping a page and mapping a copy keeps what everyone sees, the counts and the writable rule |
| `CopyOnWrite.Memory.RunOthers` | 01-processes/02-fork-and-clone.md:82 | on the copy-on-write memory: over any run of calls by other processes, writes to shared pages included, every read of a process returns what it did before |
| `Pipeline.ParentEnds` | examples/pipe_demo.c:128-154 | forks and closes of the parent keep exact knowledge of which descriptors hold which end |
| `Pipeline.WriterEnds` | examples/pipe_demo.c:131-137 | so do the writer's close, dup2 and close, its exec and its exit: standard output is its only hold on the pipe when it runs |
| `Pipeline.ReaderEnds` | examples/pipe_demo.c:143-149 | and the reader's: standard input is its only hold when it runs |
| `Pipeline.NeverStuck` | examples/pipe_demo.c:117-158 | any output, any capacity, any interleaving: until the parent has reaped both children somebody can move |
| `Pipeline.WhichClosesMatter` | 04-ipc/01-pipes-and-fifos.md:59-67 | with any of the six closes left out, a stuck state is reachable iff a reader that runs is denied the end of its input (the parent or the reader keeps the write end) or a reader that does not run leaves a writer with too much output and the read end kept by the parent or itself; when both execs succeed: iff the parent's or the reader's close of the write end is missing |
| `Pipeline.BytesInOrder` | 04-ipc/01-pipes-and-fifos.md:46-57 | received, in the pipe, and still to write always make up the writer's output in order |
| `Pipeline.Delivered` | examples/pipe_demo.c:128-157 | when all is over a reader that ran has seen end of file, and if both execs succeeded it received exactly the writer's bytes |
| `Pipeline.EveryRunEnds` | examples/pipe_demo.c:156-157 | every schedule ends within 18 steps and two per byte, with both children reaped |
| `IoCalls.ReadsCover` | 02-file-io/02-read-write.md:54-60 | the outcomes of a read that the scripts can produce are exactly: an interruption, a failure, or a positive number of bytes up to what is wanted and there, and 0 only where nothing is left |
| `IoCalls.WritesCover` | 02-file-io/02-read-write.md:62-66 | those of a write: an interruption, a failure, or any number of bytes up to what is offered |
| `WriteLoops.WriteRunExact` | 02-file-io/02-read-write.md:120-138 | a write loop fails exactly when a reply it used was fatal; interruptions and short writes leave no trace |
| `WriteLoops.WriteRunCounts` | 02-file-io/02-read-write.md:120-138 | it writes all of the buffer, or on failure less than all |
| `WriteLoops.WriteAll` | 02-file-io/02-read-write.md:224-237 | the sink gets exactly the first part of the buffer that the kernel accepted, everything on 0; a zero count is tried again |
| `WriteLoops.WriteAllStrict` | 02-file-io/02-read-write.md:120-137 | the same with a zero count taken for an error |
| `WriteLoops.WriteRetrying` | 00-foundations/04-errno-and-error-handling.md:274-281 | the retry macro never hands an interruption on |
| `WriteLoops.WriteFull` | 00-foundations/04-errno-and-error-handling.md:283-294 | with the retry inside, the loop writes what `write_all` writes, and returns the count or -1 |
| `ReadLoops.ReadRunExact` | 02-file-io/02-read-write.md:96-111 | a read loop gets all it wants, or all there is, and stops short of both exactly when a reply it used was a failure |
| `ReadLoops.ReadAll` | 00-foundations/04-errno-and-error-handling.md:173-188 | buffer and source together still hold the input, and the count is short only at end of file |
| `ReadLoops.ReadFull` | 02-file-io/02-read-write.md:96-111 | 0 exactly when all wanted bytes have arrived in order; end of file before that is a failure |
| `FileCopy.CopyExact` | 02-file-io/02-read-write.md:251-273 | on success the destination equals the source, on any failure it is a prefix of it |
| `FileCopy.CopySucceedsIff` | 02-file-io/02-read-write.md:253-266 | the copy succeeds exactly when none of the replies it used (the scripts up to what the program leaves of them) was a failing write, a failing read or an interrupted read |
| `FileCopy.InterruptedReadCutsCopy` | 02-file-io/02-read-write.md:253 | for instance a signal during the second read leaves any source longer than the buffer cut off after the first buffer |
| `FileCopy.Copy` | 02-file-io/02-read-write.md:251-272 | the nested loops leave exactly that output and exactly those rests of the scripts, end for every kernel, and return 0 only if both closes worked too |
| `EchoServer.EchoExact` | 06-sockets/02-tcp-sockets.md:190-213 | the echo is what was read, byte for byte, iff no used write reply was a hard failure, and otherwise shorter |
| `EchoServer.EchoReads` | 06-sockets/02-tcp-sockets.md:192-200 | the connection reaches end of file, with all of the input read, iff no used read reply was a failure: an interrupted read does not end it |
| `EchoServer.EchoesAll` | 06-sockets/02-tcp-sockets.md:190-213 | when no reply is a failure all of the input is read and echoed, whatever is interrupted or short |
| `EchoServer.EchoFaithful` | 06-sockets/02-tcp-sockets.md:190-213 | if writes fail by EINTR only, the output equals the input at end of file, and the output and every earlier content of a sink that only grew are prefixes of the input |
| `EchoServer.EchoGap` | 06-sockets/02-tcp-sockets.md:204-210 | after one failed write the echo need not even be a prefix of the input |
| `EchoServer.EchoBuffer` | 06-sockets/02-tcp-sockets.md:201-212 | the inner loop sends what the kernel accepts of the buffer and gives up on the rest at a hard failure |
| `EchoServer.EchoConnection` | 06-sockets/02-tcp-sockets.md:190-213 | the nested loops realise this and end for every kernel, leaving exactly those rests of the input and of both scripts; without failing replies all that the peer sent has been read and sent back; with writes that fail by EINTR only, what the peer has after each single write is a prefix of what it sent |
| `EdgeDrain.NothingStranded` | 07-io-performance/02-epoll-deep-dive.md:251-263 | asleep with no event to come, everything that arrived has been accepted, in order, iff the last drain did not end at a failing accept after more arrivals than accepts, counted on the run |
| `EdgeDrain.DrainUntilEagain` | 07-io-performance/02-epoll-deep-dive.md:115-123 | if accept fails only with EAGAIN or EINTR, nothing is ever stranded |
| `EdgeDrain.StrandedUntilEdge` | 07-io-performance/02-epoll-deep-dive.md:111-121 | once stranded, nothing is accepted before an arrival posts an event; a kernel that posts only when the queue turns non-empty never ends it |
| `EdgeDrain.EdgeEndsStranding` | 07-io-performance/02-epoll-deep-dive.md:120-121 | when the stranded program next sleeps with no event to come, and no accept has failed since, the queue is empty iff an arrival has posted |
| `EdgeDrain.FailedAcceptStrands` | 07-io-performance/02-epoll-deep-dive.md:257-258 | a stranded state can be reached |
| `EdgeDrain.Listener.AcceptDrain` | 07-io-performance/02-epoll-deep-dive.md:251-264 | the loop is a run of the event machine that ends back in the wait, for any arrivals between the calls; it ends by EAGAIN with the queue empty iff no used reply was a failure, so interruptions do not end it, and no connection is lost |
| `EdgeDrain.Listener.EventLoop` | 07-io-performance/02-epoll-deep-dive.md:282-294 | so is the loop of main: it ends with a failure iff a used reply of epoll_wait was one, not at an interruption; otherwise it uses up all replies and sleeps for ever, with the queue empty iff the last drain did not give up; every connection has arrived or is still to come |
| `Reaper.NoZombieForgotten` | examples/signal_demo.c:33-36 | although exits coalesce into one pending bit, an unreaped zombie means the signal is pending or the handler has yet to look |
| `Reaper.AllReapedInTheEnd` | examples/signal_demo.c:164-204 | with the signal unblocked and no more forks every schedule ends, with all children reaped and no handler running |
| `Reaper.DeliveriesPossible` | 04-ipc/02-signals.md:60-66 | for any n >= 1 exits, all reaped, exactly the numbers from 1 to n are possible as the number of signals delivered |
| `Reaper.MaskedWaits` | examples/signal_demo.c:115-162 | over any run during which the signal stays blocked the handler does not run and nobody is reaped, and the signal is pending at the end iff it was before or a child has exited |
| `SeccompFilter.CompileCorrect` | 08-kernel-interfaces/06-seccomp-and-security.md:61-69 | for every allow-list and every number the compiled filter allows iff the number is listed, kills otherwise, and stops at a return |
| `SeccompFilter.CompiledAcceptable` | 08-kernel-interfaces/06-seccomp-and-security.md:71-72 | all its jumps stay inside and it ends in a return, so the kernel takes it iff it has at most 4096 instructions |
| `SeccompFilter.AcceptableStops` | 08-kernel-interfaces/06-seccomp-and-security.md:71-73 | every program of these three kinds of instruction that the kernel accepts stops at a return, from any instruction |
| `SeccompFilter.InstallsIffShort` | 08-kernel-interfaces/06-seccomp-and-security.md:103-106 | with the length cut to 16 bits the filter installs iff it has at most 4096 instructions, and then decides correctly |
| `SeccompFilter.CutRefused` | 08-kernel-interfaces/06-seccomp-and-security.md:104 | the part of a longer program that is left after the cut is never acceptable |
| `SeccompFilter.ListsAtTheLimit` | 08-kernel-interfaces/06-seccomp-and-security.md:104 | 2047 numbers make 4096 instructions and install; 2048 (too long) and 32767 (length wraps to 0) are refused |
| `SeccompFilter.BasicFilter` | 08-kernel-interfaces/06-seccomp-and-security.md:86-106 | the chapter's filter installs and allows exactly read, write and exit_group |

## Left out

- QueueProgram.NoDeadlock: needs a producer and a consumer; with none of one kind the other kind may wait for ever, as in the original.
- QueueProgram.AllDelivered: with several producers the first to finish shuts the queue down, and later pushes of the others are dropped by the code; what was accepted is delivered.
- LockProgress.NeverDeadEnd: fairness is not modelled, so for the spinlock it says that the end stays reachable, not that every schedule gets there.
- DescriptorKernel.Kernel.Open: creating a missing file, access modes, O_APPEND, O_CLOEXEC, path lookup and descriptor limits; `inode` is what the path resolves to and either exists or the call fails.
- lseek other than SEEK_SET.
- CopyOnWrite.Memory.CopyPage: always copies, also when the faulting process is the frame's last user; reusing the frame then would be an optimisation that nobody can see.
- SharedOffsets.ReadsAreContiguous: files do not change during the run, so writes and truncating opens are not among its actions.
- Redirection.PrintAll: a stream's writes complete in full; short and failing ones are the subject of WriteLoops.
- Pipeline.NeverStuck: forks succeed and descriptors 0 to 2 of the parent are open beforehand.
- EchoServer.EchoConnection: one connection after accept; the listening loop around it and the client are not modelled.
- Weak memory orders, and integer overflow of the counters: the demos stay far below the limits of their types.
- The contents of `ls` and `wc`, and exec itself.
- The one-message producer and consumer of the thread demo: the producer never waits for the consumer and may overwrite an item.
- The single-send servers in the socket examples, and the read-once edge-triggered sketch in the multiplexing chapter: they do not deliver or drain, and promise nothing that could be proved.
- The argument-inspecting line of the filter pattern.
- MAP_SHARED pages, System V shared memory calls, timeouts, errno texts, printing and wall-clock time.
- Reference prose without a program: socket options, /proc, sysfs, ioctl, namespaces, cgroups, performance numbers.
