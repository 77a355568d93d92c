# A Dafny model of the UNIX demos

The demos are small C programs around POSIX primitives. This project models the ones that hold an
algorithm or a protocol and proves what they rely on. Code that updates memory is modelled in place
(classes, arrays, loops); threads and processes are modelled as state machines whose steps are single
pointer writes, loads, stores, system calls or lines of code, and the theorems quantify over every
sequence of steps. POSIX objects (locks, barriers, semaphores, condition variables, pipes, epoll,
record locks, signal masks) appear as the enabling conditions and effects of those steps. Demo
constants (numbers of threads, jobs, iterations, elements) are parameters.

| file | program |
|---|---|
| `JobQueue.dfy`, `JobQueueThreads.dfy` | the job list, in place, and under its reader/writer lock with each pointer write a step |
| `Merge.dfy`, `BarrierSort.dfy` | the K-way merge, in place, and the whole parallel sort under every schedule |
| `EchoServer.dfy`, `EpollServer.dfy`, `EchoReplies.dfy` | the echo server: transitions, the same in place, and what a connection gets back |
| `EchoClient.dfy`, `EpollClient.dfy`, `EchoSystem.dfy`, `EchoRounds.dfy`, `EchoTyping.dfy`, `EchoEarlyLine.dfy` | the echo client: transitions, the same in place, client and server together, what the user sees, and lines that do not wait |
| `RefCount.dfy` | the reference-counted objects and both thread programs |
| `RecordLock.dfy`, `TellWait.dfy`, `Deadlock.dfy`, `Daemon.dfy` | byte-range locks, the pipe handshake, the deadlock demo, the single-instance daemon |
| `SemLock.dfy`, `CondVar.dfy`, `SigSuspend.dfy` | the semaphore mutex, the two condition-variable demos, the masked critical section |
| `Fifo.dfy` | the line reader and the writer on the other side |
| `Getenv.dfy`, `GetenvThreads.dfy` | the thread-safe environment lookup, in place, and under every interleaving down to single bytes of strncpy |
| `CStrings.dfy`, `CBuffer.dfy`, `Options.dfy` | C strings, message buffers and epoll events, optional values |

`dafny verify dfyconfig.toml` checks everything.

What the code does not guarantee, with the exact condition under which it does:

- `merge` uses `minidx` uninitialised exactly when there are numbers and none is below `LONG_MAX`
  (`Merge.MergeInto`, `BarrierSort.UndefinedExactly`).
- The thread programs of `pthread_mutex.c` touch a freed object exactly when, for one of the objects,
  thread 2's last release precedes thread 1's first hold (`RefCount.SafeExactly`), and such runs exist
  for all counts (`RefCount.LateRunFromStart`).
- All connections of the echo server share one buffer. A connection gets its message back exactly when, among
  the messages read since the last write handler, the last one to reach each of its positions agrees with it
  and nothing is left behind its end (`EchoReplies.EchoesExactly`); without NULs the latter means that none of
  them is longer (`EchoReplies.IntactNulFree`), and one other message is harmless exactly when it is a prefix
  (`EchoReplies.OverwrittenExactly`). Write handlers count also when their write fails
  (`EchoReplies.FailedWriteSpoils`).
- The server runs past its buffer exactly when a read leaves no NUL in it (`EchoReplies.OverrunsExactly`), that
  is, for messages without NUL, when one of them has `MAXSIZE` bytes (`EchoReplies.FullBufferOverruns`).
- The echo client keeps standard input registered, so lines can be typed at any time. A run that ends with the
  client idle has shown what was typed exactly when every line was typed while the client was idle, and fewer
  bytes otherwise (`EchoTyping.ShownExactly`); which bytes are missing depends on the moment, and
  `EchoEarlyLine.EarlyLineIsLost` is one.
- The echo client does not clear its buffer at the start: the first line goes out intact exactly when
  the byte behind it happens to be NUL (`EchoClient.FirstLineSentExactly`). `EchoSystem` starts from a
  cleared buffer.
- `getenv_` returns the value intact exactly up to `MAXSTRINGSZ - 2` characters, or one more with luck
  (`Getenv.CopyIntactExactly`), and treats entries as key=value exactly for names without `=`
  (`Getenv.KeyedExactly`).
- The FIFO reader prints the stream unchanged, and reader and writer together the text typed, exactly when it
  has no NUL, ends in a newline and has no line longer than the buffer less one (`Fifo.PrintAll`, `Fifo.Demo`).
- `sig_suspend.c` can leave its loop exactly when the inherited mask does not block SIGQUIT
  (`SigSuspend.ExitPossibleExactly`).
- The threads of `semlock_test.c` do not look at the result of `s_lock`. The counter of a complete run is exact
  exactly when threads times iterations fits in an `int` and no thread stored after another store since its
  own load (`SemLock.UpdatesKeptExactly`). As long as no `s_lock` fails the threads exclude each other
  (`SemLock.MutualExclusion`, `SemLock.NoLostUpdate`); for all counts, one failure can put two threads inside
  and cost an update (`SemLock.FailedLockAdmitsTwo`, `SemLock.FailedLockLosesUpdate`).

Hypotheses on the environment: callers insert only absent jobs and remove only present ones;
registrations with epoll succeed; `epoll_wait` reports a descriptor once and only readiness that was asked
for; in `EchoSystem` lines are typed only while the client is idle, are not empty, have no NUL, are shorter
than the buffer (`EchoTyping` drops the waiting), writes of client and server are taken whole, and the server reads a line into a clear
buffer and serves nobody else until it has written the line back.

## Model

| member | source | states |
|---|---|---|
| `JobQueue.Queue.Insert` | pthread/job_queue.c:39-52 | both pointer chains spell `[jp]` followed by the old queue |
| `JobQueue.Queue.Append` | pthread/job_queue.c:54-66 | both pointer chains spell the old queue followed by `[jp]` |
| `JobQueue.Queue.Remove` | pthread/job_queue.c:68-89 | exactly `jp` is deleted from both chains, its own stale pointers stay, and the inner head branch of lines 79-80 is dead |
| `JobQueue.Queue.Find` | pthread/job_queue.c:91-102 | the first job with the id, or null when none has it or the read lock is refused |
| `JobQueue.Queue.Traverse` | pthread/job_queue.c:104-119 | prints the ids of the whole queue in order, or ends the process when the read lock is refused |
| `JobQueue.Queue.MirrorChains` | pthread/job_queue.c:7-19 | k links from the head and k links from the tail reach the k-th job from either end; both walks stop after as many links as there are jobs |
| `JobQueue.Queue.HeadEqualsTail` | pthread/job_queue.c:148 | with no writer active, head equals tail exactly when there is at most one job |
| `JobQueue.Put` | pthread/job_queue.c:126-136 | one turn of the filling loop: a new job at the head for odd ids, at the tail for even ids, recorded in its slot of the array |
| `JobQueue.Fill` | pthread/job_queue.c:126-136 | for any number of jobs the loop builds the interleaved order and records every job under its id |
| `JobQueue.InterleavedAt` | pthread/job_queue.c:130-133 | that order in closed form: odd ids descending, then even ids ascending |
| `JobQueue.ThreadOne` | pthread/job_queue.c:125-144 | filling and then removing in id order leaves a valid empty queue |
| `JobQueueThreads.LineKeepsPath` | pthread/job_queue.c:39-89 | each line of insert, append and remove, run on the heap its predecessors leave, moves to the next line without dereferencing null |
| `JobQueueThreads.OperationDone` | pthread/job_queue.c:39-89 | the lines of an operation together turn a list spelling `s` into one spelling the operation's effect on `s` |
| `JobQueueThreads.EveryRun` | pthread/job_queue.c:39-119 | invariant of all interleavings of any number of readers and writers |
| `JobQueueThreads.AnswersAreSnapshots` | pthread/job_queue.c:91-119 | every traversal printed, and every search answered for, the queue replayed from the operations complete when its read lock was granted |
| `JobQueueThreads.ReportsFollowEvents` | pthread/job_queue.c:39-119 | in every run the operations done are those the write locks were taken for, in the order of their release; each unlock of a reader reports the first match or the whole list of the queue when its read lock was granted; only a refused lock reports NULL without looking |
| `JobQueueThreads.HolderMoves` | pthread/job_queue.c:39-119 | whoever has the lock can go on |
| `JobQueueThreads.CanPerform` | pthread/job_queue.c:39-119 | whenever the lock is free any permitted operation and any query can be carried out to the end |
| `JobQueueThreads.NoFaultAndNoLine80` | pthread/job_queue.c:68-89 | in every run the next line of a writer and the next step of a reader follow pointers that are there, and no writer is at line 80 |
| `Merge.BeginIsProduct` | pthread/barrier_sort.c:42-43 | segment i begins at i*TNUM |
| `Merge.ScanHeads` | pthread/barrier_sort.c:45-51 | the inner loop computes the scan |
| `Merge.ScanSource` | pthread/barrier_sort.c:45-51 | a number found heads the segment it names; otherwise minidx keeps its old value |
| `Merge.ScanLeast` | pthread/barrier_sort.c:45-51 | nothing left in sorted segments is smaller than the number found |
| `Merge.OneTurn` | pthread/barrier_sort.c:44-55 | the body of the outer loop is one turn on the arrays |
| `Merge.MergeLoops` | pthread/barrier_sort.c:38-56 | the loops equal the turns and stop exactly when a turn would use minidx uninitialised |
| `Merge.FindingTurn` | pthread/barrier_sort.c:47-54 | a turn that finds a number keeps output plus rest a permutation of the input |
| `Merge.StaleTurn` | pthread/barrier_sort.c:53-54 | a turn with a stale minidx, wherever it pushes the index, still owes only LONG_MAX |
| `Merge.MergeSorts` | pthread/barrier_sort.c:38-56 | the merge completes exactly when some number is below LONG_MAX or there is none at all, and then gives a sorted permutation |
| `Merge.MergeInto` | pthread/barrier_sort.c:38-56 | the same of the method on the arrays |
| `BarrierSort.SwapStaysInside` | pthread/barrier_sort.c:29-36 | writes of one worker never touch another worker's segment |
| `BarrierSort.EveryRun` | pthread/barrier_sort.c:29-80 | invariant of all schedules of the workers and main |
| `BarrierSort.MergeAfterSorts` | pthread/barrier_sort.c:71-80 | main merges only after every worker's qsort has returned, so all segments are sorted |
| `BarrierSort.NobodyLeavesEarly` | pthread/barrier_sort.c:29-36 | no worker leaves the barrier before all workers have sorted and main has come |
| `BarrierSort.OutputIsTheSort` | pthread/norm_qsort.c:32 | the output of every complete run equals the sequential sort of the same input |
| `BarrierSort.SomebodyMoves` | pthread/barrier_sort.c:29-80 | until the merge is complete or undefined and the workers have returned some thread can move, and a sorting one by arriving or by swapping two numbers in the wrong order |
| `BarrierSort.CanComplete` | pthread/barrier_sort.c:29-80 | every input has a run to the end, with the sorted output exactly when the merge is defined |
| `BarrierSort.UndefinedExactly` | pthread/barrier_sort.c:40-54 | main's merge goes wrong exactly when no number is below LONG_MAX |
| `EchoServer.HandleKeeps` | epoll_demo/epoll_server.c:94-130 | every handler keeps the interest set: the listener on EPOLLIN, each open connection on exactly one event |
| `EchoServer.HandleFrame` | epoll_demo/epoll_server.c:81-92 | an event changes no other registered descriptor |
| `EchoServer.BatchActsOnReported` | epoll_demo/epoll_server.c:81-92 | each event of a batch meets the connection it was reported for, although descriptors close and are reused within the batch |
| `EchoServer.BatchesAreRuns` | epoll_demo/epoll_server.c:70-92 | a run of batches is the run of all their events in order |
| `EchoServer.InterestSet` | epoll_demo/epoll_server.c:67-151 | the interest set is exact after any number of batches |
| `EpollServer.Server.HandleAccept` | epoll_demo/epoll_server.c:94-103 | the new connection is registered for input under a number no other connection has, and nothing else changes |
| `EpollServer.Server.DoRead` | epoll_demo/epoll_server.c:105-119 | data goes to the front of the buffer and the connection waits to write; end of file or error closes and unregisters it; printing the buffer runs past it exactly when no NUL is left; every other descriptor keeps connection and interest, and the interest set stays exact |
| `EpollServer.Server.DoWrite` | epoll_demo/epoll_server.c:121-130 | a prefix of the buffer's C string goes to the connection behind the descriptor, which then waits to read, or it is closed; the buffer ends zero, every other descriptor keeps connection and interest, and the interest set stays exact |
| `EpollServer.Server.Handle` | epoll_demo/epoll_server.c:81-92 | one event keeps the interest set exact and every other registered descriptor as it was |
| `EpollServer.Server.HandleEvents` | epoll_demo/epoll_server.c:81-92 | the loop over a batch is the run of its events and keeps the interest set exact |
| `EchoReplies.WriteClears` | epoll_demo/epoll_server.c:121-130 | every write handler, also a failing one, leaves the buffer zero |
| `EchoReplies.BufferBetween` | epoll_demo/epoll_server.c:105-130 | steps without a successful read leave the buffer alone, or zero as soon as one of them writes |
| `EchoReplies.EchoesUnlessCleared` | epoll_demo/epoll_server.c:105-130 | a connection gets its own bytes back, addressed to itself, exactly when no write handler ran between its read and its write, for runs without other reads in between |
| `EchoReplies.BufferIsLayered` | epoll_demo/epoll_server.c:105-130 | until something runs past it the buffer is the messages since the last write handler, read one over the other |
| `EchoReplies.IntactExactly` | epoll_demo/epoll_server.c:105-122 | the buffer holds a message exactly when the last one to reach each position agrees with it and nothing is left behind its end |
| `EchoReplies.IntactNulFree` | epoll_demo/epoll_server.c:105-122 | without NULs: exactly when none is longer and the last one to reach each position agrees |
| `EchoReplies.EchoesExactly` | epoll_demo/epoll_server.c:105-130 | after any run, a connection's write sends its message, to itself, exactly when the messages since the last write handler, whatever their bytes, leave it intact; the buffer ends zero |
| `EchoReplies.FailedWriteSpoils` | epoll_demo/epoll_server.c:121-130 | a run from the start in which only a failed write of another connection lies between a read and its write, and the reply is empty |
| `EchoReplies.OverrunsExactly` | epoll_demo/epoll_server.c:105-130 | a run reads past the buffer, in printf or strlen, exactly when some read leaves no position open among the messages since the last write handler |
| `EchoReplies.FullBufferOverruns` | epoll_demo/epoll_server.c:105-130 | for messages without NUL: exactly when one has MAXSIZE bytes, whatever came before and after |
| `EchoReplies.OverwrittenExactly` | epoll_demo/epoll_server.c:105-122 | one other message read in between leaves a message intact exactly when it is a prefix |
| `EchoReplies.LaterMessageRepairs` | epoll_demo/epoll_server.c:105-122 | with more messages none needs to be a prefix |
| `CBuffer.CStrZeroed` | epoll_demo/epoll_server.c:122-129 | a message survives a cleared buffer exactly when it has no NUL and is shorter than MAXSIZE |
| `EchoClient.FirstLineSentExactly` | epoll_demo/epoll_cli.c:53-70 | from an uncleared buffer the first line is sent intact exactly when the byte behind it is NUL |
| `EpollClient.Client.DoRead` | epoll_demo/epoll_cli.c:83-99 | the data goes to the front of the buffer; input registers the socket for output, a reply replaces it by standard output; an error or end of file ends the client |
| `EpollClient.Client.DoWrite` | epoll_demo/epoll_cli.c:101-114 | a prefix of the C string goes out, short writes included, the socket waits for input or standard output is dropped, the buffer ends zero; a failed write ends the client, a buffer without NUL is an overrun |
| `EchoSystem.OnlyTheDueEvent` | epoll_demo/epoll_cli.c:72-114 | at each stage of a round only one event of client and server is possible |
| `EchoSystem.EveryRun` | epoll_demo/epoll_cli.c:83-114 | invariant of all runs of client and server with other connections coming, going and being served |
| `EchoRounds.ShowsWhatWasTyped` | epoll_demo/epoll_cli.c:83-114 | standard output is always a prefix of the lines typed and equals them whenever the client is idle |
| `EchoTyping.SpoiltStep` | epoll_demo/epoll_cli.c:72-114 | once a line has been typed too early, every event keeps the bytes shown, in the buffer and under way short of the bytes typed |
| `EchoTyping.EarlySpoils` | epoll_demo/epoll_cli.c:83-99 | a line typed at any stage of a round brings this about |
| `EchoTyping.ShownExactly` | epoll_demo/epoll_cli.c:72-114 | a run with lines typed at any time that ends idle has shown the lines of its Type events exactly when each was typed while the client was idle, and fewer bytes otherwise |
| `EchoEarlyLine.EarlyLineIsLost` | epoll_demo/epoll_cli.c:92-113 | a second line typed between the client's send and the server's read: the client ends idle having shown only the first, with the end of the second if that is longer |
| `EchoRounds.RoundGoesOn` | epoll_demo/epoll_cli.c:72-114 | a typed line is never stuck before it is shown: its next event is enabled, or is after another connection's pending write, which is |
| `RefCount.UpdateKeeps` | pthread/pthread_mutex.c:26-42 | a count update under the mutex keeps the accounting of zeros, frees and releases |
| `RefCount.PhaseKeeps` | pthread/pthread_mutex.c:26-42 | so does every other step of foo_hold and foo_rele, up to destroying and freeing |
| `RefCount.EveryRun` | pthread/pthread_mutex.c:26-85 | invariant of all interleavings of both programs on both objects |
| `RefCount.Programs` | pthread/pthread_mutex.c:47-85 | thread 1 holds and releases each object n times, thread 2 holds it n times and releases it n+1 times, releases after holds |
| `RefCount.CountIsNet` | pthread/pthread_mutex.c:26-42 | the count is one plus holds minus releases |
| `RefCount.SomebodyMoves` | pthread/pthread_mutex.c:26-42 | the mutexes never leave both threads waiting |
| `RefCount.LateIsEvent` | pthread/pthread_mutex.c:47-85 | the record of a late hold is made at exactly such a step of the schedule |
| `RefCount.SafeExactly` | pthread/pthread_mutex.c:47-85 | a complete run touches a freed object exactly when at some step of it thread 2 makes its last release of an object that thread 1 has not held yet; otherwise each object is destroyed and freed once |
| `RefCount.LastReleaseFrees` | pthread/pthread_mutex.c:33-42 | unless a hold came late, from the release that reaches zero on, both programs have made all their holds and releases of the object: the overall last release is the one that frees |
| `RefCount.LateRun` | pthread/pthread_mutex.c:47-85 | from every reachable state in which thread 1 has not begun there is a run that touches a freed object |
| `RefCount.LateRunFromStart` | pthread/pthread_mutex.c:47-85 | so for all counts there is such a run from the start |
| `RecordLock.Range` | flock/lock_reg.c:18-27 | start, whence and length as a byte range, and when the request is invalid |
| `RecordLock.RangeFromStart` | flock/lock_reg.c:18-27 | from SEEK_SET, for any file: first and last byte for positive, zero and negative lengths, and exactly when the request is valid |
| `RecordLock.RangeRelative` | flock/lock_reg.c:18-27 | SEEK_CUR counts from the file position and SEEK_END from the size |
| `RecordLock.GrantedAt` | flock/lock_reg.c:18-27 | a granted request sets exactly the requested kind on exactly the requested bytes of its own process |
| `RecordLock.ConflictIsReal` | flock/lock_reg.c:30-47 | a conflict is reported exactly when some other process holds an incompatible lock on a byte of the range, and then names such a process |
| `RecordLock.EveryHistory` | flock/flock_helpers.h:9-29 | after any calls by any processes a write-locked byte is locked by its holder alone |
| `RecordLock.ExitReleases` | flock/flock_helpers.h:9-29 | a process that exits loses its locks and nobody else does |
| `RecordLock.LockTable.LockReg` | flock/lock_reg.c:18-27 | granted, refused, blocked or invalid, the table after each, and that write-locked bytes stay exclusive |
| `RecordLock.LockTable.LockTest` | flock/lock_reg.c:30-47 | 0 exactly when F_SETLK would be granted, else the pid of a real conflicting holder |
| `TellWait.WaitFollowsTell` | flock/tell_wait.c:18-56 | over any number of rounds the k-th wait returns only after the k-th matching tell and reads the byte it checks for |
| `Deadlock.BytesHeld` | flock/deadlock.c:39-47 | from its first lock on the parent has exactly byte 1 and the child exactly byte 0, and each has both at last |
| `Deadlock.PartnerHoldsTheByte` | flock/deadlock.c:34-48 | a process asks for the second byte only while its partner holds it |
| `Deadlock.MaximalRunsDeadlock` | flock/deadlock.c:34-48 | without detection the runs that cannot go on are exactly the circular waits |
| `Deadlock.MaximalRunsCompleteOne` | flock/deadlock.c:13-48 | with EDEADLK detection the runs that cannot go on have completed exactly one process |
| `Deadlock.RunsAreFinite` | flock/deadlock.c:34-48 | every run ends |
| `Daemon.OneDaemon` | daemon/daemonize.c:104-127 | at most one instance is past the lock, and once it has written, the file reads back as its pid |
| `Daemon.OthersUndisturbed` | daemon/daemonize.c:114-122 | no step of another instance, a failed attempt included, changes the holder's lock or entry |
| `Daemon.RefusedExactly` | daemon/daemonize.c:23-32 | an attempt is refused exactly while somebody holds the lock |
| `Daemon.FirstInstanceRuns` | daemon/daemonize.c:104-127 | an instance started while nobody holds the lock gets to run with its pid in the file |
| `Daemon.SecondInstanceGoes` | daemon/daemonize.c:114-118 | one started while another holds it is refused and goes, and the holder's entry stays |
| `Daemon.ParseDecimal` | daemon/daemonize.c:124-125 | the decimal text of a pid reads back as the pid |
| `Daemon.DecimalDigits` | daemon/daemonize.c:124 | that text has digits only and no leading zero |
| `Daemon.Process.CloseAll` | daemon/daemonize.c:86-88 | closes exactly the descriptors below the limit |
| `Daemon.Process.Daemonize` | daemon/daemonize.c:34-102 | past getrlimit, two forks, sigaction and chdir the survivor is in a new session that it does not lead, so the unchecked setsid cannot have failed, and gets descriptors 0, 1, 2 on /dev/null exactly when they are closed or closable and three are allowed; without a hard limit exactly the descriptors below 1024 are closed |
| `SemLock.MutualExclusion` | IPC/sem_lock.c:36-46 | semaphore value plus threads inside is one plus the s_lock calls of the run that failed, so without one two threads are never inside |
| `SemLock.TrylockExactly` | IPC/sem_lock.c:40-42 | s_trylock then takes the lock exactly when nobody is inside |
| `SemLock.FailedLockAdmitsTwo` | IPC/semlock_test.c:11-29 | one failed s_lock admits a second thread, for any number of threads and iterations |
| `SemLock.FailedLockLosesUpdate` | IPC/semlock_test.c:11-29 | for any number of threads from two and any iterations, a complete run with one failed s_lock that ends one short |
| `SemLock.ValueExactly` | IPC/semlock_test.c:11-29 | the value built up by loads and stores is at most the number of stores, and equal to it exactly when no store is stale |
| `SemLock.UpdatesKeptExactly` | IPC/semlock_test.c:11-29 | a complete run, with any failed s_lock calls, ends at threads times iterations exactly when that fits in an int and no store is stale |
| `SemLock.NoLostUpdate` | IPC/semlock_test.c:11-29 | unless an s_lock failed, the counter ends at threads times iterations as an int keeps it, exactly so when that fits |
| `SemLock.NoDeadlock` | IPC/semlock_test.c:11-29 | while a thread has iterations left some thread can move |
| `CondVar.NoLostWakeup` | pthread/condition_signal.c:22-43 | with any spurious wakeups, a waiter asleep on a true condition still has its signal to come and passes its loop only with the finished value |
| `CondVar.QuiescentMeansServed` | pthread/pthread_signal.c:16-66 | a run that cannot go on by itself has served the waiter, unless an unexpected signal came or, in the quit demo, no SIGQUIT |
| `CondVar.QuitNeedsSigquit` | pthread/pthread_signal.c:16-66 | without SIGQUIT, whatever SIGINTs come, the flag stays unset and main in its loop; the process ends exactly on unexpected signals |
| `CondVar.SpuriousIsHarmless` | pthread/pthread_signal.c:63-66 | a spurious wakeup on a false condition takes the mutex and leads back to the same sleep |
| `CondVar.JunkIsThere` | pthread/condition_signal.c:33-39 | the pointer is set before the message is in place, with anything in the fresh memory |
| `Fifo.Readline` | IPC/fifo_demo.c:14-31 | the loop stores and consumes what the recursive reading says, in bounds and terminated; at the end it returns NULL, or ends the process when the read fails |
| `Fifo.ReadClosed` | IPC/fifo_demo.c:17-28 | one call in closed form: a line that fits, a full buffer less one dropped byte, or a forgotten tail |
| `Fifo.PrintLoop` | IPC/fifo_demo.c:46-48 | the reader loop prints the concatenated lines |
| `Fifo.PrintedShort` | IPC/fifo_demo.c:14-31 | a line that fits is printed up to its first NUL |
| `Fifo.PrintedFull` | IPC/fifo_demo.c:14-31 | of a longer one a buffer full is, and the byte behind it is dropped |
| `Fifo.PrintedForgotten` | IPC/fifo_demo.c:26-28 | an end without newline that does not fill the buffer is forgotten |
| `Fifo.PrintedLineBytes` | IPC/fifo_demo.c:14-48 | of a line without NUL byte j is printed exactly when j modulo size is not size-1 |
| `Fifo.PrintedEndBytes` | IPC/fifo_demo.c:14-48 | of an end without newline the same holds up to the last full buffer |
| `Fifo.PrintsEverything` | IPC/fifo_demo.c:46-48 | the stream is printed unchanged exactly when it has no NUL, ends in a newline and every window of size-1 bytes has one |
| `Fifo.WriteLoop` | IPC/fifo_demo.c:53-59 | the writer loop sends, of each piece fgets returns, what strlen finds, up to the write that fails or falls short, which ends it |
| `Fifo.SentCases` | IPC/fifo_demo.c:53-55 | of each line, or piece of a line, that fgets returns the bytes before the first NUL go out |
| `Fifo.EndToEnd` | IPC/fifo_demo.c:44-60 | the parent prints what was typed exactly when that has no NUL, ends in a newline and every window of size-1 bytes has one |
| `Fifo.Demo` | IPC/fifo_demo.c:44-60 | the two loops on their buffers: the parent prints what was typed exactly when the writer did not fail and the text is such a one |
| `Fifo.PrintAll` | IPC/fifo_demo.c:46-48 | the same of the method |
| `SigSuspend.HandlersOnlyInside` | signal/sig_suspend.c:29-64 | every delivery of a run finds the process inside sigsuspend with the inherited mask, or kills it before sigprocmask |
| `SigSuspend.PendingExactly` | signal/sig_suspend.c:29-64 | pending is what was raised and not delivered since, and the sigsuspends delivered what the events say, in order |
| `SigSuspend.StaysPending` | signal/sig_suspend.c:49-64 | a signal raised in the loop stays pending until a sigsuspend delivers it |
| `SigSuspend.ExitsAfterFirstQuit` | signal/sig_suspend.c:49-64 | the loop ends exactly after the first sigsuspend that delivers SIGQUIT |
| `SigSuspend.ExitPossibleExactly` | signal/sig_suspend.c:32-60 | runs that exit exist exactly when the inherited mask lets SIGQUIT through |
| `Getenv.MatchesIsPrefix` | pthread/getenv_thr.c:39 | strncmp plus the test for '=' is the prefix test on name= |
| `Getenv.Search` | pthread/getenv_thr.c:37-46 | the loop finds the first matching entry and copies its value into the caller's buffer only |
| `Getenv.Strncpy` | pthread/getenv_thr.c:40 | copies and pads the bytes it may write and leaves the rest |
| `Getenv.CopyIntactExactly` | pthread/getenv_thr.c:29-40 | the C string in the buffer is the value exactly when it leaves room for a NUL |
| `Getenv.KeyedExactly` | pthread/getenv_thr.c:38-43 | the search agrees with key=value lookup on every environment exactly for names without '=' |
| `Getenv.Program.Getenv` | pthread/getenv_thr.c:17-47 | one call in place: agrees with first-match lookup and leaves every other thread's buffer unchanged |
| `GetenvThreads.Elsewhere` | pthread/getenv_thr.c:21-47 | no step of one thread changes another's place, buffers, key slot or hold of the mutex |
| `GetenvThreads.EveryRun` | pthread/getenv_thr.c:17-47 | invariant of all interleavings of any number of threads calling, waiting, searching, copying and exiting |
| `GetenvThreads.KeyOnce` | pthread/getenv_thr.c:17-25 | the key is created at most once and before anybody uses it; nothing is used outside a buffer or after its free |
| `GetenvThreads.MutualExclusion` | pthread/getenv_thr.c:26-45 | at most one thread is between lock and unlock |
| `GetenvThreads.BuffersDistinct` | pthread/getenv_thr.c:27-36 | different threads have different buffers, also when freed addresses are handed out again |
| `GetenvThreads.AnswersHold` | pthread/getenv_thr.c:27-46 | from the return of a thread's last call in the run to its next one the answer is NULL exactly when the name of that call is not there or malloc failed in it, else an own live buffer holding the value |
| `GetenvThreads.OthersLeaveBuffers` | pthread/getenv_thr.c:40 | until a thread moves itself, every byte of its buffers stays, wherever in a copy the others are |
| `GetenvThreads.ExitFrees` | pthread/getenv_thr.c:18 | a thread that has exited leaves no buffer, unless a pthread_setspecific of its failed |
| `GetenvThreads.SomebodyMoves` | pthread/getenv_thr.c:25-45 | while a call is unfinished some thread in a call can move |
| `GetenvThreads.CallsFinish` | pthread/getenv_thr.c:21-47 | the steps left to the calls under way are bounded, whatever the schedule |
| `GetenvThreads.CanAnswer` | pthread/getenv_thr.c:21-47 | any thread can ask for any name and get its answer |

## Left out

- `proc_demos/`, `file_io/`, `sys_info/`, `std_io/`, `term_io/`, the remaining `IPC/`, `signal/` and `pthread/` demos: single system calls without a loop or a protocol, or plain copying and printing.
- Progress of a single thread under an unfair scheduler: the theorems say what runs can do and that somebody can move, not that everybody eventually does.
- `qsort`: any sequence of swaps inside the segment that ends sorted; its algorithm and `cmplong` (the order of the integers) are not modelled.
- Compiler and memory effects of the data races the programs avoid; steps are sequentially consistent.
- GetenvThreads.EveryRun: a failing `pthread_key_create` and changes of `environ` during the run are not modelled.
- EpollServer.Server.HandleEvents: failing registration calls other than the ones the server itself provokes on closed descriptors are not modelled.
- JobQueue.ThreadOne: the two loops run without another thread; `JobQueueThreads` has the interleavings.
- SemLock.NoLostUpdate: an overflowing int is taken to wrap; the naming loop of `s_alloc` is not modelled.
- RefCount.SafeExactly: the error returns of `foo_alloc` are not modelled.
- Output, delays, timing, socket set-up, `syslog`, and the signal thread of the daemon.
