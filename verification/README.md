# Concurrent protocols of an operating-systems course, verified

The repository is a set of C exercises on processes, threads, semaphores, pipes and files.
Its value is in a few small protocols whose correctness depends on every interleaving, and
in transfer loops that must come out right whatever the kernel does. This project models
nine of them in Dafny and proves what they are for. Numbers of threads and processes,
buffer sizes, operation counts and amounts are parameters everywhere.

## How the models are built

Each concurrent protocol is a transition system. `Next(s, a)` is one step of one process or
thread: one access to shared memory, one semaphore operation, or one system call. `Run`
folds it over an arbitrary schedule, so a theorem about `Run(Init(..), acts)` for all `acts`
is a theorem about all interleavings. A thread that cannot move (`Enabled` is false) stays
where it is. Semaphores are counters with a blocking decrement. A compound assignment such
as `deposit +=` is a load and a store. Sequences such as `written` and `consumed` are
history: no step looks at them.

Beside each transition system stands a class with the shared variables and the threads'
program counters as fields (`BufferProgram.Program`, `Dekker.Program`, `Dijkstra.Program`,
`RiepilogoProgram.Program`, `ValueFifoProgram.Program`, `MessageLink.Link`). Its methods
change the fields in place, and each is proved to do exactly the corresponding `Next` and to
keep the invariant, so the theorems are about the programs. The sequential code
(`common.c` of the file ring, `copy.c`, `parseOutput`, the loops of `rw.c`) is methods with
loops.

What a run did is told from the outside: the amounts drawn are those of the scheduled steps,
and the trace of a thread is what its steps are seen to do to semaphores and history. The
theorems on traces tie each thread's program text to that.

Infinite runs are functions from time to the process scheduled then. `Fairness.Eventually` is
the proof rule by which a lexicographic rank and a helpful process lead to a goal under weak
fairness; it serves Dekker, Dijkstra, the riepilogo exercise and the messages.

| file | models |
|---|---|
| `BoundedQueue`, `BoundedBuffer`, `BufferInvariant`, `BufferSteps`, `BufferTraces`, `BufferTheorems`, `BufferProgram` | the bounded buffer with two locks (`producer_consumer_n_m.c`) or one (`producer_consumer_n_1.c`; field `oneLock`) |
| `Dekker`, `DekkerLiveness` | `dekker.c` for `me` = 0 and 1, called again and again |
| `Dijkstra`, `DijkstraScan`, `DijkstraLiveness`, `DijkstraEntries`, `DijkstraStarvation` | `dijkstra.c` for any number of processes |
| `Riepilogo`, `RiepilogoTheorems`, `RiepilogoLiveness`, `RiepilogoRounds`, `RiepilogoProgram` | start barrier, rounds, log, stop flag and report of `riepilogo.c` |
| `IntBytes`, `FileRing` | the ring buffer kept in a file |
| `Copy` | copying between descriptors |
| `ValueFifo`, `ValueFifoTheorems`, `ValueFifoTraces`, `ValueFifoProgram` | producers and consumers over one named pipe |
| `Messages`, `MessageTheorems`, `MessageLiveness`, `MessageLink` | `writeMsg` and `readOneByOne` on the two ends of a pipe |
| `Sums`, `Sequences`, `Modular`, `Fairness`, `Transfers` | sums over threads, sequences regrouped and counted, circular indices, the proof rule for liveness, what the kernel does with a `read` or `write` |

## What turned out not to hold as one might expect

- Dekker, bounded bypass. A process with its flag up and the turn its own can be overtaken
  any number of times when it has just read the turn as the other's, is about to lower its
  flag, and the other is free to enter. Outside that window it is not overtaken even once.
  `BypassBoundedIff` is the exact statement and `WindowIsReachable` a run that gets there.
- Dijkstra, final loop. The loop condition `j < N && j != i` (line 20) stops at `j == i`, so
  only lower indices are looked at. The set of entries looked at is therefore a parameter
  (`Scans`). `ExcludesIffComplete`: mutual exclusion holds over all runs if and only if every
  other process is looked at. `WrittenAndFullScan`: the loop as written excludes only when
  there are fewer than two processes; a loop over every `j != i` always does. The `;` in
  `#define N 10;` is taken for a typing mistake; `n` is any number.
- Dijkstra, waiting. Somebody always enters, but a single contender can wait for ever on a
  weakly fair run as soon as there are two processes (`StarvationFreeIff`).
- Bounded buffer, deadlock. The programs check P = C when compiled; the exact condition for
  no deadlock is C <= P <= C + size (`DeadlockFreeIffBalanced`).
- File ring. Nothing in the file distinguishes a full ring from an empty one
  (`EmptyIsFull`). After a write the next reads return what was there and then the new value
  if and only if there was room, or the new value equals the one it replaces
  (`WriteIsReadBackIff`). A read of an empty ring returns a stale value, and the ring then
  passes for one that holds all the other cells (`EmptyReadReturnsStale`).
- Copy. The destination is opened without O_TRUNC, so the result is exact if and only if the
  old destination was not longer than the source (`ExactIffNotLonger`).
- Pipe. The error exits (a premature end of file, a write nobody reads) are unreachable if
  and only if the totals agree (`NeverFailsIffTotalsAgree`).
- Messages. With one call of `readOneByOne` for each message, every complete run delivers
  exactly the messages sent if and only if every message ends in its only separator
  (`RoundTripIffFramed`). The exit at a premature end of file is unreachable if and only if
  there are no more calls than separators sent (`NeverFailsIff`).

## Model

| member | source | states |
|---|---|---|
| `BufferTheorems.CriticalSections` | Lab03/code/es1/producer_consumer_n_1.c:68-74 | in every reachable state no two producers and no two consumers are inside their critical sections; with the one lock `s`, no producer and consumer either |
| `BufferTheorems.SlotRaceFreedom` | Lab03/code/es1/producer_consumer_n_m.c:66-79 | although producers and consumers hold different locks, a producer about to store and a consumer about to load never address the same slot; the store hits no unread value, and the load finds the oldest unread one |
| `BufferTheorems.StepRefinesQueue` | Lab03/code/es1/producer_consumer_n_m.c:73-74 | each step of each thread is an enqueue, a dequeue of the oldest value, or invisible, on the queue read off the array; a queue operation happens where an index moves |
| `BufferTheorems.RefinesAtomicQueue` | Lab03/code/es1/producer_consumer_n_m.c:61-117 | every interleaving, with either locking, is a legal run of the atomic bounded FIFO queue; what is consumed is a prefix of what is written, and the array holds exactly the rest, at most `size` values |
| `BoundedQueue.QueueIsFifo` | Lab03/code/es1/producer_consumer_n_m.c:72-74 | the queue specification itself: what enters leaves in order, none lost, none duplicated, never more than the capacity |
| `BufferSteps.RunKeepsInvariant` | Lab03/code/es1/producer_consumer_n_m.c:145-155 | semaphore values, threads in flight, history and indices stay tied by the token equations, the slots hold the unread values, and deposit and operation counts balance, in every reachable state |
| `BufferTheorems.EveryStepWorks` | Lab03/code/es1/producer_consumer_n_m.c:83 | a measure over remaining operations and program counters drops on every step of every thread |
| `BufferTheorems.BoundedMoves` | Lab03/code/es1/producer_consumer_n_m.c:115 | no schedule, however long, makes the threads move more often than the initial measure |
| `BufferTheorems.RunsToRest` | Lab03/code/es1/producer_consumer_n_m.c:178-187 | every run extends to one in which nobody can move |
| `BufferTheorems.StuckThreads` | Lab03/code/es1/producer_consumer_n_m.c:97-101 | when nobody can move, each producer has exited or waits on an empty `e`, each consumer has exited or waits on an empty `n`; nobody is caught at or inside a lock |
| `BufferTheorems.DeadlockFreeIffBalanced` | Lab03/code/es1/producer_consumer_n_m.c:20-22 | no reachable state is stuck with unfinished threads if and only if C <= P <= C + size, P and C being the total numbers of operations |
| `BufferTheorems.DepositConserved` | Lab03/code/es1/producer_consumer_n_m.c:178-190 | with P = C every maximal run ends with all threads finished; what was consumed is what the threads drew, as often as they drew it, and `deposit` is the initial one plus the sum of the amounts drawn |
| `BufferTraces.MadeIsDrawn` | Lab03/code/es1/producer_consumer_n_m.c:64 | the recorded amounts are those of the producers' scheduled draws, in order |
| `BufferTraces.AllEntered` | Lab03/code/es1/producer_consumer_n_m.c:64-74 | when all producers have exited, the values entered are the amounts drawn, in some order |
| `BufferTraces.ProducerDoesItsRounds` | Lab03/code/es1/producer_consumer_n_m.c:61-85 | what is seen of a producer is, for each amount it drew and in that order: the draw, wait for room, lock, entry of that amount, unlock, post; no round begins before the last is finished, and on exit there are exactly as many as the thread was created for |
| `BufferTraces.ConsumerDoesItsRounds` | Lab03/code/es1/producer_consumer_n_m.c:95-117 | the same for a consumer: wait for an item, lock, take a value, unlock, post, as often as the thread was created to |
| `BufferTraces.HeldUpOnlyBySemaphores` | Lab03/code/es1/producer_consumer_n_m.c:66-70 | a thread that cannot move has exited or is at a `sem_wait` on a semaphore that is zero |
| `BufferTraces.ProducerWritesItsOwn` | Lab03/code/es1/producer_consumer_n_m.c:73-74 | a producer's writes to array and index are determined by its own variables, and it writes nothing of the consumers' |
| `BufferTraces.ConsumerWritesItsOwn` | Lab03/code/es1/producer_consumer_n_m.c:103-104 | a consumer's store to `deposit` and to the index is determined by what it loaded before: `deposit +=` is not one step |
| `BufferTheorems.PinnedDeposit` | Lab03/code/es1/producer_consumer_n_m.c:43-54 | with the amount pinned as in this file, the final deposit is the initial one plus 2 for every operation |
| `BufferTheorems.TransactionIsBijective` | Lab03/code/es1/producer_consumer_n_1.c:42-53 | the residues 0 .. 2*max-1 correspond one-to-one to the nonzero values from -max to max, with an explicit inverse |
| `BufferTheorems.TransactionSigns` | Lab03/code/es1/producer_consumer_n_1.c:47-52 | below max the amounts are positive and grow with the residue; the residues from max on give the same amounts, negative |
| `BufferTheorems.DepositBounded` | Lab03/code/es1/producer_consumer_n_1.c:101 | in every reachable state `deposit` differs from the initial one by at most max times the additions made so far |
| `BufferTheorems.DepositNeverOverflows` | Lab03/code/es1/producer_consumer_n_1.c:93-101 | if the largest amounts, max for each consumer operation, cannot leave the range of `int`, no interleaving ever does |
| `BufferProgram.Program.constructor` | Lab03/code/es1/producer_consumer_n_m.c:128-176 | the initialisations of `main` give the initial state, for any size, initial deposit and threads |
| `BufferProgram.Program.ProducerStep` | Lab03/code/es1/producer_consumer_n_m.c:57-89 | one in-place step of a producer is the step of the transition system, keeps the invariant, and moves exactly when the thread is not blocked |
| `BufferProgram.Program.ProducerWait` | Lab03/code/es1/producer_consumer_n_m.c:66-70 | the two `sem_wait` of a producer |
| `BufferProgram.Program.ProducerCritical` | Lab03/code/es1/producer_consumer_n_m.c:72-74 | the store to the slot and the move of `write_index`, as four accesses to shared memory |
| `BufferProgram.Program.ConsumerStep` | Lab03/code/es1/producer_consumer_n_m.c:91-121 | one in-place step of a consumer is the step of the transition system, keeps the invariant, and moves exactly when the thread is not blocked |
| `BufferProgram.Program.ConsumerDeposit` | Lab03/code/es1/producer_consumer_n_m.c:103 | `deposit +=` as three accesses to shared memory |
| `Dekker.MutualExclusion` | Esercizi_Personali/dekker.c:10-20 | the two processes are never both in the critical section, over all runs |
| `Dekker.Program.Step` | Esercizi_Personali/dekker.c:9-21 | one access to `flag` or `turn`, in place, is the step of the transition system and keeps the invariant |
| `Dekker.OwnFlagOnly` | Esercizi_Personali/dekker.c:10-20 | each process writes only its own flag, and the turn only to give it away on leaving |
| `Dekker.OneAccess` | Esercizi_Personali/dekker.c:11-16 | what a step does next depends on at most one shared variable, and on none if it writes one |
| `Dekker.AlwaysAsks` | Esercizi_Personali/dekker.c:10 | a process outside can always raise its flag and contend |
| `Dekker.UncontendedEnters` | Esercizi_Personali/dekker.c:10-11 | nobody else wanting to, it enters with its next step |
| `Dekker.WaitsForTurn` | Esercizi_Personali/dekker.c:13-14 | having lowered its flag a process keeps it down over every run on which the turn stays the other's |
| `Dekker.LeavesInThree` | Esercizi_Personali/dekker.c:18-21 | a process inside is outside with its flag down after its next three steps, whatever the other does meanwhile |
| `DekkerLiveness.StarvationFreedom` | Esercizi_Personali/dekker.c:11-17 | on every infinite weakly fair run a process that has raised its flag enters later |
| `DekkerLiveness.AlternationIsFair` | Esercizi_Personali/dekker.c:11-17 | weakly fair runs exist |
| `DekkerLiveness.BypassBoundedIff` | Esercizi_Personali/dekker.c:12-15 | with its flag up and the turn its own, a process is overtaken at most once if and only if it is not in the window before line 13 with the other free to enter; then it is not overtaken at all, and in the window no number bounds it |
| `DekkerLiveness.WindowIsReachable` | Esercizi_Personali/dekker.c:13-19 | a run of eight steps that reaches the window |
| `DekkerLiveness.ProtectedIsNotBypassed` | Esercizi_Personali/dekker.c:11-15 | outside the window the other does not enter before the process does, over all finite runs |
| `Dijkstra.MutualExclusion` | Esercizi_Personali/dijkstra.c:15-25 | with every other process looked at, no two of any number of processes are ever in the critical section, also across `goto E` with `passed[i]` still set |
| `Dijkstra.Program.Step` | Esercizi_Personali/dijkstra.c:12-26 | one access to `passed`, `interested` or `k`, in place, is the step of the transition system, and keeps exclusion when the scan is complete |
| `Dijkstra.OwnEntriesOnly` | Esercizi_Personali/dijkstra.c:14-25 | each process writes only its own entries, and nothing but itself into `k` |
| `Dijkstra.OneAccess` | Esercizi_Personali/dijkstra.c:15-21 | what a step does next depends on at most one shared variable, and on none if it writes one |
| `Dijkstra.AlwaysAsks` | Esercizi_Personali/dijkstra.c:14 | a process outside can always set its entry and contend |
| `Dijkstra.OwnerNeverBacksOff` | Esercizi_Personali/dijkstra.c:15-22 | as long as `k` is its own, a process keeps its `passed` entry set until it has been inside, also across `goto E` |
| `Dijkstra.LeavesInThree` | Esercizi_Personali/dijkstra.c:23-26 | a process inside is outside with both entries clear after its next three steps, whatever the others do meanwhile |
| `DijkstraScan.MissingPairViolates` | Esercizi_Personali/dijkstra.c:17-21 | if any process never looks at some other, there is a run that puts both into the critical section |
| `DijkstraScan.ExcludesIffComplete` | Esercizi_Personali/dijkstra.c:19-22 | mutual exclusion over all runs holds if and only if every other process is looked at |
| `DijkstraScan.WrittenAndFullScan` | Esercizi_Personali/dijkstra.c:20 | the loop as written excludes if and only if there is at most one process; the loop over every `j != i` always excludes |
| `DijkstraEntries.SomebodyEnters` | Esercizi_Personali/dijkstra.c:14-25 | on every infinite weakly fair run on which somebody contends, some contender enters the critical section then or later, for any number of processes, with others inside at that time, and with several past the test of `interested[k]` at once |
| `DijkstraEntries.FiniteContinuation` | Esercizi_Personali/dijkstra.c:15-22 | from every reachable state with a contender, a finite continuation takes one of the contenders of that state into the critical section |
| `DijkstraEntries.RoundRobinIsFair` | Esercizi_Personali/dijkstra.c:15-18 | weakly fair runs exist: any finite run followed by everybody in turn is one |
| `DijkstraLiveness.SomebodyInside` | Esercizi_Personali/dijkstra.c:15-22 | the ranking argument: while nobody is inside, every step brings somebody closer, so that somebody is inside then or later |
| `DijkstraStarvation.StarvationFreeIff` | Esercizi_Personali/dijkstra.c:15-18 | every contender gets in on every weakly fair run if and only if there is at most one process; for two or more, a run on which one contender waits for ever |
| `RiepilogoTheorems.StartBarrier` | Lab07/src/02 riepilogo/riepilogo.c:161-182 | no child is past the start semaphore and no child thread exists before all n children have posted readiness |
| `RiepilogoTheorems.ReleasedOnce` | Lab07/src/02 riepilogo/riepilogo.c:264-276 | posts of the start semaphore equal children started plus units left; when all have started none is left |
| `Riepilogo.RunKeepsInvariant` | Lab07/src/02 riepilogo/riepilogo.c:282-317 | in every reachable state each child's records are m for every completed round plus those of the current one, and the semaphores account for everybody |
| `RiepilogoRounds.LogIsExclusive` | Lab07/src/02 riepilogo/riepilogo.c:94-112 | in every reachable state at most one thread, of all children, is between taking and releasing the log |
| `RiepilogoRounds.GoesRoundAgain` | Lab07/src/02 riepilogo/riepilogo.c:314-317 | at the end of a round with the flag unset the child begins another, with m threads to create |
| `RiepilogoRounds.AnyNumberOfRounds` | Lab07/src/02 riepilogo/riepilogo.c:282-317 | from every reachable state with the flag unset, for every child and every k, the run can go on with the flag unset until that child has done at least k more rounds and added at least m * k more records |
| `RiepilogoRounds.ExitsOnlyAtCheck` | Lab07/src/02 riepilogo/riepilogo.c:314 | a child exits only by finding the flag set at the end of a round |
| `RiepilogoRounds.HeldUpOnly` | Lab07/src/02 riepilogo/riepilogo.c:94-309 | what main, a child or a thread can be waiting for, and nothing else |
| `RiepilogoTheorems.ExactAccounting` | Lab07/src/02 riepilogo/riepilogo.c:200-213 | when main reaches `parseOutput`, in any interleaving, every child has exited after at least one round, its count is m times its rounds, and the counts sum to the number of records |
| `RiepilogoTheorems.CountsAddUp` | Lab07/src/02 riepilogo/riepilogo.c:136-142 | the histogram of a log of valid identities sums to its length |
| `RiepilogoTheorems.StopBound` | Lab07/src/02 riepilogo/riepilogo.c:194-209 | after `*data = 1` each child appends at most m more records, and how many is determined by the state at that moment |
| `RiepilogoTheorems.NeverStuck` | Lab07/src/02 riepilogo/riepilogo.c:161-209 | no reachable state is stuck before main has finished |
| `RiepilogoTheorems.EveryStepWorks` | Lab07/src/02 riepilogo/riepilogo.c:302-317 | after the flag is set every step of every process and thread lowers a measure |
| `RiepilogoTheorems.BoundedMoves` | Lab07/src/02 riepilogo/riepilogo.c:314 | after the flag is set no schedule makes more moves than that measure |
| `RiepilogoTheorems.RunsToDone` | Lab07/src/02 riepilogo/riepilogo.c:197-213 | every run in which the flag is set extends to one in which main has reaped everybody and reported |
| `RiepilogoLiveness.AlwaysFinishes` | Lab07/src/02 riepilogo/riepilogo.c:346-401 | on every infinite weakly fair run main reaches its end, whatever n and m |
| `RiepilogoLiveness.RoundRobinIsFair` | Lab07/src/02 riepilogo/riepilogo.c:346-401 | weakly fair runs exist for every n and m: main, the children and their threads in turn |
| `RiepilogoProgram.ParseOutput` | Lab07/src/02 riepilogo/riepilogo.c:126-159 | the array counts each identity in the log, and the result is the lowest index with the greatest count, or -1 and -1 for no children |
| `RiepilogoProgram.MostRoundsWins` | Lab07/src/02 riepilogo/riepilogo.c:149-157 | if each count is m times the rounds, the child reported is the first of those with the most rounds |
| `RiepilogoProgram.Program.MainStep` | Lab07/src/02 riepilogo/riepilogo.c:161-213 | one in-place step of main is the step of the transition system, keeps the invariant, and moves exactly when main is not blocked |
| `RiepilogoProgram.Program.ChildStep` | Lab07/src/02 riepilogo/riepilogo.c:260-317 | the same for a child |
| `RiepilogoProgram.Program.ThreadStep` | Lab07/src/02 riepilogo/riepilogo.c:89-124 | the same for a thread of a child |
| `RiepilogoProgram.Program.Report` | Lab07/src/02 riepilogo/riepilogo.c:213 | in any valid state in which main calls `parseOutput`, the child reported is the first of those with the most rounds |
| `IntBytes.DecodeEncode` | Lab03/code/es3/common.c:35 | an `int` read back from the four bytes written for it is the same |
| `IntBytes.EncodeDecode` | Lab03/code/es3/common.c:28 | and every four bytes are those of exactly one `int` |
| `IntBytes.BytesAddUp` | Lab03/code/es3/common.c:35 | two's complement, least significant byte first: modulo 2^32 the value is the weighted sum of its four bytes |
| `FileRing.InitFile` | Lab03/code/es3/common.c:3-17 | for every numElems to which 2 can be added, the new file has 4 * (numElems + 2) bytes (none if that is negative), all zero, and represents the empty queue when numElems is at least one |
| `FileRing.Layout` | Lab03/code/es3/common.c:24-32 | in bytes: the data cells from 0, the read index at 4 * numElems, the write index after it, and nothing more |
| `FileRing.WriteToBufferFile` | Lab03/code/es3/common.c:19-47 | the seeks, reads and writes have the effect of `Written`, byte for byte |
| `FileRing.ReadFromBufferFile` | Lab03/code/es3/common.c:49-79 | the seeks, reads and writes return `Oldest` and have the effect of `Consumed`, byte for byte |
| `FileRing.WriteTouches` | Lab03/code/es3/common.c:31-43 | a write keeps the file's length, indices in range and the read index, and changes no byte outside one data cell and the write index |
| `FileRing.ReadTouches` | Lab03/code/es3/common.c:61-73 | a read changes no byte but those of the read index |
| `FileRing.WriteInBytes` | Lab03/code/es3/common.c:31-43 | a write makes four bytes those of the value, four those of the next write index, and leaves every other byte of the file |
| `FileRing.ReadInBytes` | Lab03/code/es3/common.c:61-73 | a read makes four bytes those of the next read index, and leaves every other byte |
| `FileRing.WriteEnqueues` | Lab03/code/es3/common.c:31-43 | a write to a ring with room appends the value to the queue the file represents |
| `FileRing.ReadDequeues` | Lab03/code/es3/common.c:61-78 | a read from a ring that is not empty returns the oldest value and removes it |
| `FileRing.FullWriteReplacesOldest` | Lab03/code/es3/common.c:39 | a write to a full ring makes the next read return the new value instead of the oldest |
| `FileRing.EmptyIsFull` | Lab03/code/es3/common.c:39-43 | a file represents the empty queue if and only if it represents the queue of all its cells |
| `FileRing.EmptyReadReturnsStale` | Lab03/code/es3/common.c:61-73 | a read of an empty ring returns what is left in the cell, and the file then represents the queue of all the other cells |
| `FileRing.FullWriteThenReads` | Lab03/code/es3/common.c:31-43 | what all the following reads return after a write to a full ring |
| `FileRing.WriteIsReadBackIff` | Lab03/code/es3/common.c:31-43 | after a write to a ring that represents q, the next reads return q and then the value if and only if there was room or the value equals the oldest one |
| `FileRing.FileIsFifo` | Lab03/code/es3/common.c:19-79 | over every sequence of calls that never reads when empty or writes when full, and any number of laps, the values returned are the first of those written, in order, and the file represents the rest |
| `Copy.Kernel.Read` | Lab06/src/01 copy/copy.c:36-46 | the kernel's side of `read`: EINTR, or at least one byte unless at the end, at most what was asked, and the next bytes of the source |
| `Copy.Kernel.Write` | Lab06/src/01 copy/copy.c:72-80 | the kernel's side of `write`: EINTR, or at least one of whatever bytes it is given, laid over the destination at its offset |
| `Copy.PatchIsLaid` | Lab06/src/01 copy/copy.c:72-80 | byte by byte, what laying bytes over a file at an offset means: those bytes there, the old ones elsewhere, and the length |
| `Transfers.EveryTransferOccurs` | Lab06/src/01 copy/copy.c:26-35 | the kernel modelled may transfer any part of what is possible, but never nothing |
| `Copy.FillBlock` | Lab06/src/01 copy/copy.c:17-48 | the inner read loop leaves the next bytes of the source in the buffer, a whole block of them unless the source ends |
| `Copy.DrainBlock` | Lab06/src/01 copy/copy.c:53-81 | the inner write loop lays all bytes of the buffer over the destination, once and in order |
| `Copy.PerformCopy` | Lab06/src/01 copy/copy.c:13-85 | for every block size of at least one and every pattern of short transfers and finitely many interrupts, the loops end and the destination is the source laid over the old destination, byte by byte |
| `Copy.ExactIffNotLonger` | Lab06/src/01 copy/copy.c:105-113 | without O_TRUNC the copy is exact if and only if the old destination was not longer; otherwise its tail stays |
| `ValueFifoTheorems.PipeIsFifo` | Lab07/src/01 prod_cons/consumer.c:59-69 | in every reachable state the values consumed are a prefix of those produced, the pipe holds the others as whole integers and no more than it has room for, no consumer holds part of one, and the local sums account for all |
| `ValueFifoTraces.ProducerSendsItsDraws` | Lab07/src/01 prod_cons/producer.c:84-103 | a producer sends exactly the amounts it drew, in order, the last perhaps not yet; its sum is that of what it sent; on exit it has done as many operations as it was created for and its sum is that of its own draws |
| `ValueFifoTraces.ConsumerSumsItsValues` | Lab07/src/01 prod_cons/consumer.c:73-89 | a consumer's sum is that of the values it took, and on exit it has taken as many as it was created for |
| `ValueFifoTraces.DrawsArrive` | Lab07/src/01 prod_cons/producer.c:88-99 | with equal totals, a run in which nobody can move has consumed what was drawn, in some order, and all consumers' sums together, like all producers', are the sum of all draws |
| `ValueFifoTraces.PipeFills` | Lab07/src/01 prod_cons/producer.c:75-80 | the producers can run ahead by any number of values the pipe has room for |
| `ValueFifoTraces.HeldUpOnlyByPipe` | Lab07/src/01 prod_cons/consumer.c:60-68 | a process that cannot move has exited, writes to a pipe without room, or reads from an empty one that is still open |
| `ValueFifo.ConsumerTakesOldest` | Lab07/src/01 prod_cons/consumer.c:61-68 | a read that finds the pipe not empty takes exactly the oldest value, although it asks only for bytes |
| `ValueFifoTheorems.NeverFailsIffTotalsAgree` | Lab07/src/01 prod_cons/common.h:25-27 | no interleaving reaches an error exit if and only if producers and consumers have the same total number of operations |
| `ValueFifoTheorems.EveryStepWorks` | Lab07/src/01 prod_cons/producer.c:84-103 | a measure drops on every step of every process |
| `ValueFifoTheorems.BoundedMoves` | Lab07/src/01 prod_cons/consumer.c:76-86 | no schedule, however long, makes the processes move more often than the initial measure |
| `ValueFifoTheorems.RunsToRest` | Lab07/src/01 prod_cons/consumer.c:106-114 | every run extends to one in which nobody can move |
| `ValueFifoTheorems.CompleteRun` | Lab07/src/01 prod_cons/consumer.c:73-89 | with equal totals, a run in which nobody can move has every process finished, the pipe empty, consumed equal to produced in order, and equal sums of the local sums |
| `ValueFifoProgram.Program.WriteValue` | Lab07/src/01 prod_cons/producer.c:64-82 | the in-place effect of a write of one value |
| `ValueFifoProgram.Program.ProducerStep` | Lab07/src/01 prod_cons/producer.c:84-103 | one in-place step of a producer is the step of the transition system and keeps the invariant |
| `ValueFifoProgram.Program.ReadValue` | Lab07/src/01 prod_cons/consumer.c:43-70 | the in-place effect of a read: some bytes, or the error exit at a closed empty pipe |
| `ValueFifoProgram.Program.ConsumerStep` | Lab07/src/01 prod_cons/consumer.c:73-89 | one in-place step of a consumer is the step of the transition system and keeps the invariant |
| `ValueFifoProgram.Program.CloseWriters` | Lab07/src/01 prod_cons/producer.c:120-129 | the write end is closed when, and only when, every producer has exited |
| `Messages.PayloadBytes` | Lab06/src/03 EchoFIFO/rw.c:50-55 | what is sent of a buffer is the bytes before its first NUL, in order |
| `MessageTheorems.DeliveredInOrder` | Lab06/src/03 EchoFIFO/rw.c:6-65 | if every message ends in its only separator, in every interleaving of the pieces written and the bytes read the messages delivered are the first of those sent, and the bytes collected, in the pipe and unsent are exactly the others |
| `MessageTheorems.RoundTripIffFramed` | Lab06/src/03 EchoFIFO/rw.c:25-35 | with one call for each message, complete runs exist, and each of them delivers exactly the messages sent, with nothing left over and no error, if and only if every message ends in its only separator |
| `MessageTheorems.OneWayToCut` | Lab06/src/03 EchoFIFO/rw.c:32-34 | a stream of such messages can be cut into messages in one way only |
| `MessageTheorems.BufferFits` | Lab06/src/03 EchoFIFO/rw.c:27 | the reader's buffer never needs more room than the longest message |
| `MessageTheorems.NeverFailsIff` | Lab06/src/03 EchoFIFO/rw.c:29 | no interleaving reaches the exit at the end of file if and only if the reader makes no more calls than separators are sent |
| `MessageTheorems.NoPrematureEnd` | Lab06/src/03 EchoFIFO/rw.c:19-21 | with such messages and at most as many calls the exit is never reached, and until every message is delivered there is something to send or to read |
| `MessageTheorems.EveryStepWorks` | Lab06/src/03 EchoFIFO/rw.c:61-62 | a measure drops on every step of either side |
| `MessageTheorems.HeldUpOnlyByPipe` | Lab06/src/03 EchoFIFO/rw.c:27-30 | the reader waits only for an empty pipe that is still open, the writer never |
| `MessageTheorems.BoundedMoves` | Lab06/src/03 EchoFIFO/rw.c:53-63 | no schedule, however long, makes the two sides move more often than the initial measure |
| `MessageTheorems.RunsToRest` | Lab06/src/03 EchoFIFO/rw.c:25-35 | every run, whatever the messages, extends to one in which neither side can move |
| `MessageTheorems.RunsToDelivery` | Lab06/src/03 EchoFIFO/rw.c:53-63 | with such messages every run extends to one that has delivered exactly all of them |
| `MessageLiveness.AlwaysDelivers` | Lab06/src/03 EchoFIFO/rw.c:6-65 | every infinite weakly fair run comes to rest, with exactly the messages sent delivered if and only if every message ends in its only separator |
| `MessageLiveness.InTurnIsFair` | Lab06/src/03 EchoFIFO/rw.c:53-63 | weakly fair runs exist |
| `MessageLink.Link.WriteCall` | Lab06/src/03 EchoFIFO/rw.c:55-62 | one `write`, interrupted or appending to the pipe the next bytes of the buffer, a positive part of what is left, in place |
| `MessageLink.Link.WriteMsg` | Lab06/src/03 EchoFIFO/rw.c:40-65 | however the kernel cuts it up and with finitely many interrupts, the call ends and the pipe has grown by exactly the bytes before the first NUL |
| `MessageLink.Link.ReadCall` | Lab06/src/03 EchoFIFO/rw.c:27-34 | one `read` of one byte, in place: interrupted, the front byte of the pipe, or the end of the file |
| `MessageLink.Link.ReadOneByOne` | Lab06/src/03 EchoFIFO/rw.c:6-38 | with the writer running in between as it likes and finitely many interrupts, the call ends; it takes the first message off the stream, be it in the pipe or still to be written, into the buffer, and leaves the rest untouched; it exits at the end of file if and only if no separator is ahead |

## Left out

- Printing, sleeping, `rand`, reporting of `errno`, allocation and freeing of memory, and
  failures of `fork`, `pthread_create`, `open` and the semaphore calls. The amount drawn is a
  parameter of the producer's step; main may stay asleep for any number of steps of the others.
- Opening, closing, unlinking and mapping of semaphores, shared memory and files, apart from
  the two ends of the pipe whose closing matters to the protocol.
- Weak memory: accesses to shared variables are sequentially consistent.
- Widths of integers. The sums `deposit` and `localSum` are unbounded; `DepositNeverOverflows`
  says when `deposit` never leaves `int`. Values in files and pipes are 32-bit, as is
  everything `FileRing` stores.
- FileRing.WriteToBufferFile: requires a file as the calls leave it, with offsets that fit an
  `int`, as the code computes them; so does FileRing.ReadFromBufferFile. The sum in the loop
  of FileRing.InitFile must fit one too.
- IntBytes.DecodeEncode: an `int` is four bytes, two's complement, little-endian, as on the
  machines the course uses; the C standard leaves that open.
- Copy.PerformCopy: the kernel interrupts only finitely often; against one that always
  interrupts the loops would not end. The same holds of `WriteMsg` and `ReadOneByOne`.
- MessageLink.Link.WriteMsg: as a method, runs with nobody reading meanwhile; all
  interleavings of the two sides are in `Messages.Run`.
- MessageLink.Link.ReadOneByOne: requires room in the buffer for the bytes it is going to take,
  which the code leaves to its callers.
- The pipe of the messages has no capacity: a `write` held up by a full pipe is one that comes
  later. The results on termination and delivery take it that there is room in the end.
- FIFO writes of four bytes happen at once, as the standard guarantees up to PIPE_BUF; a read
  is interrupted before it has read anything or not at all, and an interrupted call is
  repeated without effect. The loops of `writeValue` and `readValue` for partial transfers are
  present in the model of the reader; that of the writer never goes round twice.
- A write to a pipe that nobody reads any more ends the process by a signal; it is modelled
  as the same error exit as a failed call.
- Steps on an index outside the array, which the transition system of the bounded buffer
  defines as having no effect; `SlotRaceFreedom` says that no run takes one.
- The literal constants (128 slots, 20 threads, 10 children) and command-line arguments;
  numbers of children and threads that are negative.
- Lab03/code/es1/producer_consumer_1_1.c and producer_consumer_1_m.c: the first initialises
  its semaphores wrongly, the second repeats the protocol of the one-lock program.
- The other labs. Plain counters, single handshakes, simple k-exclusion, schedulers and timers
  involve no interplay beyond what is modelled here; in two shared-memory variants of Lab05
  the indices start apart or items are dropped, so they are no queues; the sockets and the
  quit handling of EchoFIFO are unfinished.
