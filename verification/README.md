# Verified models of the operating-system exercises and of the stats_of_random module

The repository holds exercises on threads (lab01), kernel exercises (lab02 to lab04) and a
kernel module (project) that counts what is read from /dev/random by hooking a kernel function.
This project models the parts with real protocols, transformations and data structures and
proves properties of them for every number of threads, turns, slots, tasks and bytes, and over
every interleaving.

| file | models |
|---|---|
| `BatchBuffer.dfy` | the batch buffer with two condition variables, `lab01/ex6.c` |
| `ReadersWriters.dfy` | readers, writers and critics, `lab01/ex4.c`; without critics, `lab01/ex1.c` |
| `LimitedReaders.dfy` | objects with a reader limit and two locks each, `lab01/ex5.c` |
| `OnePlaceBuffers.dfy` | slots under trylock, `lab01/ex3.c` |
| `CodeOffsets.dfy`, `Relocation.dfy`, `RelocatedFlow.dfy`, `Hijack.dfy` | the code relocator and hook patcher, `project/hijacks.c` |
| `HashTable.dfy` | the chained hash table and the clean-up loop of `lab04/1`, `lab04/5` and `project/module.c` |
| `UserTable.dfy` | the system calls `lab04/1` and `lab04/5` |
| `ReadAccounting.dfy` | the read accounting of `project/module.c` |
| `Sums.dfy`, `Visits.dfy` | totals over a table of threads, and going round in turn, used by the protocols |

**Threads.** A protocol is a state with one record per thread and a step function.  What a thread
does under a mutex in one go is one step; waiting for a mutex, a trylock and every unlocked access
are steps of their own.  A run is any sequence of steps from an initial state; spurious wake-ups
are steps too, so the invariants hold with them, and only the bounds on the length of a run leave
them out.  Values to be written are inputs of the steps.  Beside it stands a class with the globals of the C
file, whose methods change them as the C code does and are proved equal to the step function; its
scheduler picks any thread that can move, and it is proved to terminate.  Bookkeeping fields
(finished rounds, who read or wrote what) are ghosts of that class; no step looks at them.

**Code.** Memory is an array of bytes; addresses and 32-bit fields wrap around as in C, in the
64-bit and in the 32-bit configuration.  The instruction decoder is a parameter with a contract.  An
instruction has at most 15 bytes, and its operands begin within it or at its end; the operations ask
for no more.  To say what the copied code means, an instruction has to depend on its own bytes only,
and at the instructions that the copy loop meets, a CALL or JMP rel32 (opcodes E8 and E9) or a
RIP-relative operand (section 2.2.1.6 of volume 2 of the Intel 64 and IA-32 Architectures Software
Developer's Manual) has its value as a 4-byte little-endian part of the instruction that decides
nothing else.  `RelocatedFlow.ContractCanBeMet` exhibits a decoder that meets all of this.  Control
goes on from an instruction over a distance (falling through, or by a short jump) or through its
rel32 field; a path records at each instruction the way it took, so nothing is asked of ways that no
path takes.

**Tables.** Entries are heap objects linked in both directions, with the back link pointing to the
place that points to the entry.  A ghost set holds what was allocated and a ghost sequence what was
freed, in order; a link may be read, and an entry freed, only while it is allocated, and an
entry may not be freed while a chain still leads to it.

## Where the code and its promises part

- `lab01/ex6.c`: every joined thread returns if and only if the turn counts fit the batches
  (`BatchBuffer.CanFinish`): the readers' turns make up exactly the full batches that the writers
  fill, or the writers' turns make up one batch more than the readers' full ones.  The constants of
  the file fit; three turns a side and batches of two do not (`BatchBuffer.OddTurnsDoNotFit`).
- `project/hijacks.c`: only rel32 and RIP-relative fields are fixed up, and only in the instructions
  that the copy loop meets one behind the other.  Take a path of the original through such
  instructions and through any others whose bytes no rewritten field runs into
  (`RelocatedFlow.Places`).  The copy follows it if and only if every hop on it lands within the
  function and every call or jump with a target outside belongs to an instruction that the loop met and
  has that target within reach of the copy (`RelocatedFlow.PathMirrored`).
  `RelocatedFlow.ShortJumpEscapes` and `RelocatedFlow.CallOutOfReach` are functions that go wrong, and
  so is `RelocatedFlow.JumpIntoField`, where a path goes on inside a rewritten field; `RelocatedFlow.PaddingDoesNotMatter` is one whose
  padding could not be kept and need not be.
- `project/hijacks.c`: the buffer is as long as the symbol, but the copy is as long as the instructions
  that begin in it, and a rewritten field has four bytes even where the operand has fewer.  The attempt,
  successful or not, stays within the buffer if and only if neither an instruction nor such a field runs
  past the symbol (`Hijack.StaysInBuffer`).  `Hijack.CallAtTheEnd` copies nine bytes into a buffer of
  five, `Hijack.NarrowOperandAtTheEnd` copies five and writes seven.  Where all operands have four bytes,
  only the last instruction of a successful copy can run past it (`Hijack.WrittenIsCopy`).
- `project/hijacks.c`: the patched entry leads to the hook if and only if the hook is within reach
  (`Hijack.Kernel.Patch`); the code does not check it, and `Hijack.HookOutOfReach` is a hook it misses.
- `project/module.c`: unloading frees the entries of all calls in flight, and with them what they will
  write to when they return.  All entries that calls keep survive if and only if no call is in
  flight (`ReadAccounting.ReadStatistics.Exit`).
- `lab04/1` and `lab04/5`: the sums are kept modulo 2^32 and 2^64.  If some stored sum is positive, the
  call names a user with the largest sum, whatever the order of the table, if and only if every user
  with less than the largest sum also has less after the reduction; if none is, if and only if the
  code for none happens to be such a user (`UserTable.AnswerIsBusiest`).  `UserTable.OverflowMisleads` is
  a list on which it fails and `UserTable.OverflowCanBeHarmless` one on which a sum overflows and it does not.
- `lab04/1` and `lab04/5`: one entry is allocated for every process and one freed for every user, so
  all others are lost (`UserTable.SysMySyscall`).

## Model

| member | source | states |
|---|---|---|
| `BatchBuffer.SharedBuffer.constructor` | `lab01/ex6.c:16-20` | all counters are 0 and every thread has all of its turns ahead |
| `BatchBuffer.SharedBuffer.BeginRead` | `lab01/ex6.c:28-34` | a reader sleeps on its guard or claims the slot at readIndex |
| `BatchBuffer.SharedBuffer.DoRead` | `lab01/ex6.c:39` | outside the mutex the reader gets what its slot holds, and nothing else changes |
| `BatchBuffer.SharedBuffer.EndRead` | `lab01/ex6.c:41-48` | the last release of a round flips the buffer to fill and wakes the writers |
| `BatchBuffer.SharedBuffer.BeginWrite` | `lab01/ex6.c:62-68` | a writer sleeps on its guard or claims the slot at writeIndex |
| `BatchBuffer.SharedBuffer.DoWrite` | `lab01/ex6.c:73` | outside the mutex the writer stores its value in its slot only |
| `BatchBuffer.SharedBuffer.EndWrite` | `lab01/ex6.c:76-84` | the last commit flips the buffer to drain and wakes the readers |
| `BatchBuffer.SharedBuffer.ReaderTurn` | `lab01/ex6.c:26-51` | one step of a reader, whichever it has come to |
| `BatchBuffer.SharedBuffer.WriterTurn` | `lab01/ex6.c:60-87` | one step of a writer, whichever it has come to |
| `BatchBuffer.SharedBuffer.ScheduleOne` | `lab01/ex6.c:22-90` | whoever is chosen, the invariant is kept and the rank drops |
| `BatchBuffer.SharedBuffer.RunThreads` | `lab01/ex6.c:92-95` | under every schedule the run ends; all threads are then finished if and only if the turn counts fit; finished rounds gave out the values that were put in |
| `BatchBuffer.InitInv` | `lab01/ex6.c:16-20` | the invariant holds initially |
| `BatchBuffer.StepInv` | `lab01/ex6.c:28-84` | every step, spurious wake-ups included, accesses only slots within the buffer and keeps the two-phase invariant |
| `BatchBuffer.RunInv` | `lab01/ex6.c:22-90` | every state of every run is filling or draining, with the counters equal to threads in flight and commits, distinct slots in flight, and no thread asleep whose guard is false |
| `BatchBuffer.NoConflict` | `lab01/ex6.c:32-39` | no two threads hold one slot, and readers and writers are never in flight together |
| `BatchBuffer.SlotExchanged` | `lab01/ex6.c:39-73` | in each finished round each slot is written once and read once, and the reader gets the written value |
| `BatchBuffer.ValuesExchanged` | `lab01/ex6.c:39-73` | over any number of finished rounds the values read are, as a multiset, the values written |
| `BatchBuffer.RunTurns` | `lab01/ex6.c:26-60` | the accesses a thread has made and its turns to come always add up to its turns |
| `BatchBuffer.OutputIsOfActions` | `lab01/ex6.c:39-73` | in every run the writes are those of the values that the writers were given, in their order, and a read gives what its slot holds |
| `BatchBuffer.BufferIsWritten` | `lab01/ex6.c:73` | a writer stores the value it was given in the slot it claimed, and no other step changes the buffer |
| `BatchBuffer.ReaderLetIn` | `lab01/ex6.c:29-33` | a reader is let in, to the next slot, if and only if the batch has been written and not all of it claimed; else it sleeps |
| `BatchBuffer.WriterLetIn` | `lab01/ex6.c:63-67` | a writer is let in, to the next slot, if and only if not all of the batch has been claimed; else it sleeps |
| `BatchBuffer.LastReaderCloses` | `lab01/ex6.c:42-47` | the round is closed and the writers are woken just when the last of its readers leaves |
| `BatchBuffer.LastWriterWakes` | `lab01/ex6.c:77-82` | the readers are woken just when the last write of the round is committed |
| `BatchBuffer.StepTurns` | `lab01/ex6.c:39-73` | a step charges its access to the thread that makes it, and closing a round loses none |
| `BatchBuffer.StepRank` | `lab01/ex6.c:29-67` | each step that is not a spurious wake-up gets its thread ahead or puts it to sleep, lexicographically |
| `BatchBuffer.RunsAreBounded` | `lab01/ex6.c:26-60` | a bound on the length of every run without spurious wake-ups |
| `BatchBuffer.StuckStates` | `lab01/ex6.c:8-11` | a reachable state where nothing can move has all threads finished if and only if the turn counts fit the batches |
| `BatchBuffer.OddTurnsDoNotFit` | `lab01/ex6.c:8-11` | a configuration in which every complete run leaves a thread asleep |
| `BatchBuffer.EndOfWholeBatches` | `lab01/ex6.c:8-11` | with equal totals that are whole batches such a state has all threads finished and no round half done |
| `BatchBuffer.CompleteRun` | `lab01/ex6.c:22-90` | then every thread has made exactly its turns, and the values read are, as a multiset, those that the writers were given |
| `ReadersWriters.SharedDocument.constructor` | `lab01/ex4.c:12-17` | both mutexes are free, nobody has written, and every thread has all of its turns ahead |
| `ReadersWriters.SharedDocument.ReaderTurn` | `lab01/ex4.c:25-40` | one step of a reader, with the blocking inner lock as a step of its own |
| `ReadersWriters.SharedDocument.WriterTurn` | `lab01/ex4.c:54-68` | one step of a writer, which counts itself when it writes for the first time and wakes the critics when all have |
| `ReadersWriters.SharedDocument.CriticTurn` | `lab01/ex4.c:80-90` | one step of a critic, which sleeps until every writer has written |
| `ReadersWriters.SharedDocument.ScheduleOne` | `lab01/ex4.c:19-96` | whoever is chosen, the invariant is kept and the rank drops; nobody is chosen only if nobody can move |
| `ReadersWriters.SharedDocument.RunThreads` | `lab01/ex4.c:98-135` | under every schedule the run ends with all threads finished |
| `ReadersWriters.InitInv` | `lab01/ex4.c:103-105` | the invariant holds initially |
| `ReadersWriters.StepInv` | `lab01/ex4.c:25-90` | every step keeps the meaning of both mutexes and of both counters |
| `ReadersWriters.RunInv` | `lab01/ex4.c:19-96` | in every state of every run writerMutex is held by exactly one writer, one critic or the group of readers, writerCount counts the writers that have written, and no critic sleeps once all have |
| `ReadersWriters.NoOverlap` | `lab01/ex4.c:25-90` | readers, a writer and a critic exclude each other, readerCount is the number of readers past the entry, and the group holds writerMutex while one of them reads |
| `ReadersWriters.ContentHeld` | `lab01/ex1.c:38-95` | the shared object does not change throughout the section of any reader |
| `ReadersWriters.CriticsComeLast` | `lab01/ex4.c:81-83` | in every reachable state nobody criticizes unless every writer has been through its section |
| `ReadersWriters.ReaderStepMeans` | `lab01/ex4.c:25-40` | over every run: the first reader of a group goes for writerMutex, others go in at once, and nothing else changes |
| `ReadersWriters.WriterStepMeans` | `lab01/ex4.c:54-68` | a writer goes in, stores the value it was given and leaves; the critics are woken just when all have written |
| `ReadersWriters.CriticStepMeans` | `lab01/ex4.c:80-90` | a critic that comes while some writer has not written goes to sleep and changes nothing else; any other criticizes |
| `ReadersWriters.TurnsAreSections` | `lab01/ex4.c:23-78` | the sections that a thread has been through and those to come make up its turns |
| `ReadersWriters.SomebodyHolds` | `lab01/ex4.c:25-82` | a thread that cannot go on waits for one that is not finished: the holder of the mutex, or for a sleeping critic a writer that has not written |
| `ReadersWriters.ChainsAreShort` | `lab01/ex4.c:25-82` | whoever is waited for by a waiting thread can move, and a reader that waits while it holds readerMutex does not wait for a reader |
| `ReadersWriters.SomebodyCanMove` | `lab01/ex4.c:25-82` | as long as a thread is not finished, it can move, or the one it waits for, or the one that waits for |
| `ReadersWriters.StuckIsFinished` | `lab01/ex4.c:81-83` | there is no deadlock, and no critic sleeps for good |
| `ReadersWriters.StepRank` | `lab01/ex4.c:25-90` | each step that is not a spurious wake-up gets its thread ahead or puts a critic to sleep, lexicographically |
| `ReadersWriters.RunsAreBounded` | `lab01/ex4.c:23-78` | a bound on the length of every run without spurious wake-ups |
| `ReadersWriters.CompleteRun` | `lab01/ex4.c:60-63` | a run that cannot go on has taken every thread through as many sections as it has turns, and counted every writer exactly once |
| `LimitedReaders.ObjectPool.constructor` | `lab01/ex5.c:101-107` | every object is empty and free, with a limit of at least 1 |
| `LimitedReaders.ObjectPool.ReaderTurn` | `lab01/ex5.c:26-50` | one step of a reader, trylock, wait for the deep mutex and unlocked read being separate |
| `LimitedReaders.ObjectPool.WriterTurn` | `lab01/ex5.c:65-87` | one step of a writer, likewise |
| `LimitedReaders.ObjectPool.ScheduleOne` | `lab01/ex5.c:20-95` | whoever is chosen, the invariant is kept and a step is used up; nobody is chosen only if nobody can move |
| `LimitedReaders.ObjectPool.RunThreads` | `lab01/ex5.c:97-135` | under every schedule the run ends with all threads finished |
| `LimitedReaders.InitInv` | `lab01/ex5.c:101-107` | the invariant holds initially |
| `LimitedReaders.StepInv` | `lab01/ex5.c:26-87` | every step keeps the meaning of both mutexes and of the counter of every object |
| `LimitedReaders.RunInv` | `lab01/ex5.c:20-95` | in every state of every run the mutexes and the counter of each object say who is inside |
| `LimitedReaders.NoOverlap` | `lab01/ex5.c:30-85` | at most the permitted number of readers is at an object, no writer beside a reader or another writer |
| `LimitedReaders.ReadsAreCurrent` | `lab01/ex5.c:43-80` | whenever a reader reads, something has been stored in the slot and what it reads was stored last |
| `LimitedReaders.FullMeansMarked` | `lab01/ex5.c:46-86` | in every run an object is full just if the last thing that happened to its mark was that a writer set it, so that a release empties it |
| `LimitedReaders.ReaderStepMeans` | `lab01/ex5.c:26-51` | a reader passes by an object that is held, goes away from one that is not marked or at its limit, and is admitted to any other |
| `LimitedReaders.WriterStepMeans` | `lab01/ex5.c:65-88` | a writer passes by an object that is held, goes away from one that is marked, and else stores the value it was given and marks it |
| `LimitedReaders.ReaderVisitsInOrder` | `lab01/ex5.c:24-25` | a reader visits the objects in turn, as many rounds as it has turns |
| `LimitedReaders.WriterVisitsInOrder` | `lab01/ex5.c:63-64` | so does a writer |
| `LimitedReaders.SomebodyHolds` | `lab01/ex5.c:26-85` | a thread that cannot go on waits for one that holds the mutex it wants |
| `LimitedReaders.ChainsAreShort` | `lab01/ex5.c:35-50` | whoever is waited for by a waiting thread can move, so chains of waiting have length two at most |
| `LimitedReaders.SomebodyCanMove` | `lab01/ex5.c:26-85` | as long as a thread is not finished, it can move, or the one it waits for, or the one that waits for |
| `LimitedReaders.StuckIsFinished` | `lab01/ex5.c:26-87` | there is no deadlock |
| `LimitedReaders.StepStages` | `lab01/ex5.c:24-25` | each step uses up one of the steps that the threads have ahead |
| `LimitedReaders.RunsAreBounded` | `lab01/ex5.c:24-64` | a bound on the length of every run |
| `OnePlaceBuffers.SharedSlots.constructor` | `lab01/ex3.c:85-88` | every slot is empty and free |
| `OnePlaceBuffers.SharedSlots.ReaderTurn` | `lab01/ex3.c:22-41` | one step of a reader, trylock, look, read and release being separate |
| `OnePlaceBuffers.SharedSlots.WriterTurn` | `lab01/ex3.c:53-72` | one step of a writer, likewise |
| `OnePlaceBuffers.SharedSlots.RunThreads` | `lab01/ex3.c:80-118` | under every schedule the run ends with all visits made |
| `OnePlaceBuffers.MoveInv` | `lab01/ex3.c:25-72` | every step keeps one holder per mutex and alternation of writes and reads per slot |
| `OnePlaceBuffers.RunInv` | `lab01/ex3.c:18-78` | every state of every run satisfies the invariant |
| `OnePlaceBuffers.MoveThread` | `lab01/ex3.c:29-40` | what a thread saw in a slot stays true while it holds the slot, whoever moves |
| `OnePlaceBuffers.AlternatingIsFifo` | `lab01/ex3.c:37-69` | alternation with matching values is the log of a buffer with one place |
| `OnePlaceBuffers.SlotIsBuffer` | `lab01/ex3.c:29-69` | in every reachable state the values written to a slot are those read from it and, if it is marked full, the one it holds |
| `OnePlaceBuffers.NoConflict` | `lab01/ex3.c:25-40` | no two threads are in one slot |
| `OnePlaceBuffers.StepMeans` | `lab01/ex3.c:25-72` | over every run: a thread passes by a slot that is held, leaves one with nothing to do, and else writes the value it was given or reads the one written last |
| `OnePlaceBuffers.VisitIsServed` | `lab01/ex3.c:29-71` | a thread that takes a slot with something to do completes its write or read there, whatever all others do meanwhile |
| `OnePlaceBuffers.MoveStages` | `lab01/ex3.c:22-24` | each step uses up one of the steps that the threads have ahead |
| `OnePlaceBuffers.RunsEnd` | `lab01/ex3.c:22-44` | runs are bounded, and one that cannot go on is one where every thread has made all visits |
| `OnePlaceBuffers.VisitsInOrder` | `lab01/ex3.c:22-24` | every thread visits the slots in turn, as many rounds as it has turns |
| `CodeOffsets.DecodeOfEncode` | `project/hijacks.c:7-16` | decoding an encoded address gives it back if and only if it is within signed 32 bits of the end of the instruction; on 32 bits it always does |
| `CodeOffsets.EncodeOfDecode` | `project/hijacks.c:7-16` | encoding the target of a field gives the field back |
| `CodeOffsets.TargetMovesAlong` | `project/hijacks.c:36-38` | an untouched field denotes a target that moves along with its instruction |
| `CodeOffsets.StoredField` | `project/hijacks.c:40-43` | a field is stored little-endian and reads back as what was stored |
| `Relocation.DecodeOfCopy` | `project/hijacks.c:25-43` | wherever they stand, the bytes copied for an instruction with a free field decode to that instruction up to its field |
| `Relocation.WrittenInPlace` | `project/hijacks.c:40-43` | a field that has its four bytes within the instruction is written within it |
| `Relocation.Stop` | `project/hijacks.c:213-232` | the copy loop ends, past the trimmed length by less than one instruction, or before it if and only if something does not decode |
| `Relocation.Reach` | `project/hijacks.c:213-232` | what the loop writes goes as far as that, and past the trimmed length by less than an instruction and a field |
| `Relocation.ReachIsStop` | `project/hijacks.c:213-232` | and no further if every field is in its place |
| `Relocation.InsnArrives` | `project/hijacks.c:226-229` | source and destination stay in lockstep: each instruction arrives at its own offset |
| `Relocation.DiffersOnlyInFields` | `project/hijacks.c:25-63` | a byte that the loop copies is that of the original or part of a field that refers outside |
| `RelocatedFlow.TargetMirrored` | `project/hijacks.c:31-43` | in the copy a field denotes the mirror of its target if and only if that is inside or within reach of the copy |
| `RelocatedFlow.HopMirrored` | `project/hijacks.c:47-49` | a jump that is not fixed up lands in the mirror of its target if and only if that is inside |
| `RelocatedFlow.WayMirrored` | `project/hijacks.c:28-63` | a copied instruction offers the same ways to go on, and each leads to the mirror if and only if it is kept |
| `RelocatedFlow.InsnMirrored` | `project/hijacks.c:18-66` | every copied instruction is fetched with the same bytes apart from the field, the same ways, and the exact condition for each way and for the field |
| `RelocatedFlow.OperandsArrive` | `project/hijacks.c:25-63` | the bytes of every copied instruction: all are the same but the operand of a call or jump or a RIP-relative one, and that is the same if its target is inside and else denotes the same target from its new place, just if that is within reach |
| `RelocatedFlow.ClearInsn` | `project/hijacks.c:213-230` | bytes of the function that no rewritten field runs into are fetched from the copy as the same instruction, wherever it begins |
| `RelocatedFlow.PlaceMirrored` | `project/hijacks.c:213-230` | such an instruction, or one that the loop met, has the same ways in the copy, with the exact condition for each way and for the field |
| `RelocatedFlow.PathMirrored` | `project/hijacks.c:213-230` | every path of the original through such instructions, up to its first step out, is followed by the copy the same way if and only if each way on it is kept |
| `RelocatedFlow.PathLifted` | `project/hijacks.c:213-234` | every path through such places of the copy from its entry over kept ways is the mirror of one through the original |
| `RelocatedFlow.PathFieldsMirrored` | `project/hijacks.c:28-63` | along any path through such instructions all fields, those of RIP-relative operands included, denote the mirrors of their targets if and only if each target is inside or within reach of the copy |
| `RelocatedFlow.ShortJumpEscapes` | `project/hijacks.c:47-49` | a function whose copy jumps to the wrong place, by a short jump out of it |
| `RelocatedFlow.CallOutOfReach` | `project/hijacks.c:40-43` | a function whose copy calls the wrong place, the right one being out of reach |
| `RelocatedFlow.LoadOfData` | `project/hijacks.c:47-63` | a load at a RIP-relative address, whose copy has another displacement and loads the same word |
| `RelocatedFlow.JumpIntoField` | `project/hijacks.c:40-43` | a function with a jump into a field that is rewritten, whose copy does something else there |
| `RelocatedFlow.PaddingDoesNotMatter` | `project/hijacks.c:213-230` | a function with padding after its last jump, all of whose paths are kept |
| `RelocatedFlow.ContractCanBeMet` | `project/hijacks.c:214-216` | there is a decoder that meets the contract |
| `Hijack.Trimmed` | `project/hijacks.c:200-202` | the length without trailing zeros |
| `Hijack.VerdictIsOutcome` | `project/hijacks.c:171-224` | when a hijack succeeds, and how it fails, told by the bytes alone: long enough, not all zeros, and instructions following one another up to the last byte that is not 0 |
| `Hijack.ChainIsSweep` | `project/hijacks.c:200-232` | the instructions copied are those that follow one another up to there, and the copy ends where they end |
| `Hijack.CopyIsChain` | `project/hijacks.c:213-232` | each of them stands in the copy, with its operand |
| `Hijack.ZerosBehind` | `project/hijacks.c:200-202` | a function with zeros behind it is hijacked, with a copy shorter than the symbol |
| `Hijack.NothingButZeros` | `project/hijacks.c:204-211` | a symbol that is nothing but zeros is refused |
| `Hijack.Kernel.FindSymbol` | `project/symbols.c:28-45` | every lookup sets the name, and a successful one the address, both sizes and the place to run |
| `Hijack.Kernel.FixupField` | `project/hijacks.c:36-43` | the field is left alone if its target is inside, and otherwise rewritten for the place of the copy |
| `Hijack.Kernel.Blank` | `project/hijacks.c:190` | the buffer is zero and nothing else has changed |
| `Hijack.Kernel.SetAddrRw` | `project/hijacks.c:106-132` | the page becomes writable and the flag tells whether it was read-only |
| `Hijack.Kernel.SetAddrRo` | `project/hijacks.c:134-159` | the page becomes read-only again just if the flag says so |
| `Hijack.Kernel.WriteEntry` | `project/hijacks.c:236-265` | the entry of a function is written only while its page is writable |
| `Hijack.Kernel.CopyAndFixup` | `project/hijacks.c:18-66` | the bytes that arrive for an instruction, with the field rewritten if and only if it refers outside |
| `Hijack.Kernel.TrimEnd` | `project/hijacks.c:200-202` | the trim loop computes the trimmed length |
| `Hijack.Kernel.DecodeAt` | `project/hijacks.c:214-224` | what is decoded is the original instruction, which the copy so far has not touched |
| `Hijack.Kernel.CopyOne` | `project/hijacks.c:214-229` | one round of the copy loop keeps what has been copied and goes on to the next instruction |
| `Hijack.Kernel.CopyCode` | `project/hijacks.c:213-232` | the loop succeeds if and only if every instruction decodes; whether or not it does, memory is exactly what the writes up to there make of it |
| `Hijack.Kernel.PrepareCopy` | `project/hijacks.c:190-232` | the outcome of everything from the zero fill to the copy, in the order of the checks, and the memory exactly |
| `Hijack.SweptCopies` | `project/hijacks.c:213-230` | writes that may run into each other leave the relocated code, one instruction behind the other |
| `Hijack.SweptOutside` | `project/hijacks.c:213-230` | and change nothing outside what the loop reaches |
| `Hijack.SweptAlike` | `project/hijacks.c:213-230` | what the loop reaches is overwritten, whatever was there before |
| `Hijack.SweptBehind` | `project/hijacks.c:200-230` | behind the last instruction a byte is as before or part of a rewritten field |
| `Hijack.ResultOutside` | `project/hijacks.c:190-232` | the attempt writes within the buffer and what the loop reaches |
| `Hijack.RestIsZero` | `project/hijacks.c:190` | the rest of the buffer is zero, also when a symbol is too short |
| `Hijack.WrittenIsCopy` | `project/hijacks.c:190-232` | that is the buffer or the copy, and on failure the buffer, if every field is in its place |
| `Hijack.ResultIsCopy` | `project/hijacks.c:190-232` | then every byte of the buffer, over the whole symbol, is that of the original or part of a rewritten field |
| `Hijack.StaysInBuffer` | `project/hijacks.c:181-232` | an attempt leaves the byte after the buffer alone, whatever it is, if and only if nothing that the loop writes runs past the symbol |
| `Hijack.CallAtTheEnd` | `project/hijacks.c:213-230` | a symbol of five bytes whose copy has nine |
| `Hijack.NarrowOperandAtTheEnd` | `project/hijacks.c:40-43` | a symbol of five bytes over whose copy seven bytes are written |
| `Hijack.Kernel.Patch` | `project/hijacks.c:236-247` | only the five bytes of the entry change, the old ones are kept, the page's writable bit is as before, and the jump leads to the hook if and only if that is within reach |
| `Hijack.HookOutOfReach` | `project/hijacks.c:240-243` | a hook that the patched entry misses by 2^32 |
| `Hijack.Kernel.Redirect` | `project/hijacks.c:234-249` | outside what the loop reached only the five bytes of the entry change, and the copy stays as it is |
| `Hijack.Kernel.HijackInto` | `project/hijacks.c:190-254` | success patches the entry, every failure frees the buffer and leaves all bytes alone that the attempt does not reach |
| `Hijack.Kernel.HijackFound` | `project/hijacks.c:176-254` | the outcome once the symbol is known, in the order of the checks, with the buffer freed on every failure |
| `Hijack.Kernel.SymbolHijack` | `project/hijacks.c:161-255` | the outcome for every input, told by the bytes of the function; success redirects it and leaves a copy in which every instruction and operand is as it has to be; every failure leaves the function and the list of buffers alone; no byte changes beyond the exact footprint |
| `Hijack.PatchOverCopy` | `project/hijacks.c:234-243` | the patch leaves the copy intact and the old entry bytes are those of the original |
| `Hijack.Kernel.SymbolRestore` | `project/hijacks.c:257-281` | a hijacked function gets its five bytes back and the buffers, which are still allocated, are freed; on one that is not, no byte changes |
| `Hijack.BytesRestored` | `project/hijacks.c:238-265` | the saved bytes put back make the memory the original outside a region that the patch did not touch |
| `Hijack.Kernel.LoadAndUnload` | `project/module.c:195-218` | hijack followed by restore is the identity on the writable bit, on the list of buffers and on every byte outside the footprint, which is the buffer, or what the loop reaches if that is longer, or nothing if there was no buffer |
| `HashTable.Table.Find` | `lab04/5/mysyscalls/mysyscall.c:15-24` | walking one bucket finds the entry of a key if and only if the table has one |
| `HashTable.Table.Get` | `lab04/1/mysyscalls/mysyscall.c:15-24` | the entry found holds the value of the key, and none is found just for keys without a value |
| `HashTable.Table.KeysUnique` | `lab04/5/mysyscalls/mysyscall.c:43-51` | no key occurs twice, in a bucket or across buckets |
| `HashTable.Table.Alloc` | `lab04/5/mysyscalls/mysyscall.c:38-40` | a new entry is not linked and the table is as before |
| `HashTable.Table.Link` | `lab04/1/mysyscalls/mysyscall.c:48` | an entry is put in front of one chain with all links in place and no other entry touched |
| `HashTable.Table.Add` | `lab04/1/mysyscalls/mysyscall.c:48` | the entry is first in the bucket of its key and all other buckets are as before |
| `HashTable.Table.Insert` | `lab04/5/mysyscalls/mysyscall.c:49` | a new key is linked at the head of its bucket, links in both directions are kept, and the table holds one value more |
| `HashTable.Table.SetValue` | `lab04/5/mysyscalls/mysyscall.c:45` | the value of one key changes and no other |
| `HashTable.Table.Unlink` | `lab04/1/mysyscalls/mysyscall.c:71` | an entry is taken out of the middle, the front or the end of one chain by way of its back link |
| `HashTable.Table.UnlinkBeside` | `project/module.c:224` | unlinking leaves all other chains in place |
| `HashTable.Table.Del` | `project/module.c:224` | an entry is unlinked wherever it stands in its chain, which is otherwise kept |
| `HashTable.Table.Free` | `project/module.c:225` | an entry is freed only while it is allocated and no chain leads to it |
| `HashTable.Table.Drop` | `project/module.c:224-225` | the entry met before, if any, is unlinked and freed |
| `HashTable.Table.Advance` | `project/module.c:223-228` | one round: the entry before is dropped, and the link followed is one of an entry still allocated |
| `HashTable.Table.SweepBucket` | `lab04/1/mysyscalls/mysyscall.c:70-75` | the inner loop, over one bucket, keeps the account of what is gone |
| `HashTable.Table.Sweep` | `project/module.c:220-228` | the delayed-delete loop meets every entry in order, frees each once the loop stands on the next, also across buckets, and leaves only the last one linked |
| `HashTable.Table.Cleanup` | `lab04/5/mysyscalls/mysyscall.c:69-79` | for a table that is not empty, all linked entries are freed once each, in order, and all buckets end empty |
| `HashTable.Table.CleanupAny` | `project/module.c:220-230` | the same for any table |
| `HashTable.TrailStep` | `lab04/1/mysyscalls/mysyscall.c:70-75` | one round of that loop: the entry met before is the first left in its bucket, and dropping it keeps the account of what is gone |
| `HashTable.TrailEnd` | `lab04/1/mysyscalls/mysyscall.c:76-77` | at the end all entries but the last have been freed, and there is a last one unless the table was empty |
| `UserTable.OneMoreTask` | `lab04/5/mysyscalls/mysyscall.c:37-53` | one more process changes the expected sum of its user by its weight, wrapped to the width of the field, and no other |
| `UserTable.AddTask` | `lab04/5/mysyscalls/mysyscall.c:38-51` | one round of the loop over the processes changes the table accordingly and allocates one entry |
| `UserTable.AddTasks` | `lab04/1/mysyscalls/mysyscall.c:36-52` | after the loop the table holds exactly the per-user sums over the list of processes |
| `UserTable.BusiestOf` | `lab04/1/mysyscalls/mysyscall.c:57-65` | the search of one bucket goes on from what the buckets before gave |
| `UserTable.Busiest` | `lab04/5/mysyscalls/mysyscall.c:57-67` | the search over all buckets computes the winner of the entries in their order |
| `UserTable.WinnerIsFirst` | `lab04/5/mysyscalls/mysyscall.c:61-65` | that is the first entry with the largest value, or nothing if no value is positive |
| `UserTable.WinnerIsTop` | `lab04/1/mysyscalls/mysyscall.c:59-63` | no user has a larger value than the winner, who has it unless it is 0 |
| `UserTable.OneEntryEach` | `lab04/1/mysyscalls/mysyscall.c:36-52` | the table has as many entries as there are users |
| `UserTable.WinnerIsAnswer` | `lab04/1/mysyscalls/mysyscall.c:56-81` | the answer is a user with the largest stored sum, or the code for none |
| `UserTable.SysMySyscall` | `lab04/1/mysyscalls/mysyscall.c:26-82` | for every nonempty list of processes the call gives that answer and leaves the table empty; one entry per process has been allocated, one per user freed; with nothing stored the answer is 1 or 0 |
| `UserTable.StoredIsExact` | `lab04/5/mysyscalls/mysyscall.c:12` | the stored sum is the exact one if and only if that fits its field |
| `UserTable.TotalIsSum` | `lab04/5/mysyscalls/mysyscall.c:37-45` | the exact sum of a user is over the list, of one for every process or of its user and system time |
| `UserTable.AnswerIsBusiest` | `lab04/5/mysyscalls/mysyscall.c:57-81` | for every list, the exact condition under which every answer is a user with the largest exact sum: the reduction keeps those users above the others, or, if all stored sums are 0, the code for none is one of them |
| `UserTable.InRangeIsBusiest` | `lab04/5/mysyscalls/mysyscall.c:57-81` | it is met if all sums are in range and one is positive |
| `UserTable.MostProcesses` | `lab04/1/mysyscalls/mysyscall.c:56-81` | with fewer than 2^32 processes the answer is always a user with the most processes |
| `UserTable.OverflowMisleads` | `lab04/5/mysyscalls/mysyscall.c:45` | a list on which the reduction breaks the order and the only answer is the wrong user |
| `UserTable.OverflowCanBeHarmless` | `lab04/5/mysyscalls/mysyscall.c:45` | a list on which a sum overflows and the answer is right all the same |
| `ReadAccounting.ReadStatistics.BeginRead` | `project/module.c:145-164` | the books before the blocking call, with the entry that the call keeps; no entry of another call is lost |
| `ReadAccounting.ReadStatistics.NewSession` | `project/module.c:149-157` | a process without an entry gets one, and all others stay |
| `ReadAccounting.ReadStatistics.OpenSession` | `project/module.c:145-164` | a process without an open session gets a new or a reset entry, one with an open session keeps it, and no other entry changes |
| `ReadAccounting.ReadStatistics.AddResult` | `project/module.c:170-178` | a result is added to the entry of its process, which is finished by one below 1 |
| `ReadAccounting.ReadStatistics.EndRead` | `project/module.c:169-180` | the books after it |
| `ReadAccounting.ReadStatistics.HandleCall` | `project/module.c:145-166` | a new call leaves the entries of all calls in flight in the table |
| `ReadAccounting.ReadStatistics.HandleReturn` | `project/module.c:166-180` | so does a call that ends |
| `ReadAccounting.ReadStatistics.Serve` | `project/module.c:138-181` | over every order of begins and ends, at most one in flight per process, each call finds its entry still in the table and the books are those of the history |
| `ReadAccounting.ReadStatistics.Exit` | `project/module.c:218-230` | unloading frees every entry once and leaves the table empty; the entries kept by calls in flight survive if and only if there is none |
| `ReadAccounting.StepAgrees` | `project/module.c:149-178` | one more begin or end keeps the books in agreement with the history, and the reader count is positive whenever it is about to be decremented |
| `ReadAccounting.Run` | `project/module.c:138-181` | after every legal history each entry holds what its process has read since its last reset, the total what all have read, both modulo 2^64 |
| `ReadAccounting.ReaderCountIsExact` | `project/module.c:150-175` | reader_count is the number of entries that are not finished, and no call is in flight in a finished one |
| `ReadAccounting.OpenMeans` | `project/module.c:172-176` | a session is open from the call that opens it until a result below 1 comes back, and a call in flight until it returns |
| `ReadAccounting.CallMeans` | `project/module.c:149-164` | a call opens a session with nothing read, unless one is open, and changes no other |
| `ReadAccounting.ReturnMeans` | `project/module.c:169-176` | a return adds its result to the total and to its session, which it closes if it is below 1 |
| `ReadAccounting.FitsIsExact` | `project/module.c:169-170` | the total and a session are exact if and only if they fit in 64 bits |
| `ReadAccounting.BytesConserved` | `project/module.c:162-170` | all that was read is in the latest session of some process or in one whose record was used again |
| `ReadAccounting.TotalConserved` | `project/module.c:162-170` | all_bytes is, modulo 2^64, the sum of the stored sessions and of the discarded ones |

## Left out

- `lab01/ex2.c`, whose guards do not count threads in flight, so that its counter leaves its range
  and slots are shared; only weak facts hold of it.
- lab02, lab03, `lab04/2` to `lab04/4` and the handlers that print the counters of `project/module.c`
  under /proc.
- Starvation: the protocols of `lab01/ex1.c` and `lab01/ex4.c` favour readers, and only deadlock
  freedom and bounded runs are proved.
- Creating and joining threads, sleeping, printing and random numbers; values written are inputs.
- `lab01/ex1.c` has no model of its own: it is the readers and writers of `ReadersWriters` without
  critics, whose writers then keep a count that nobody reads.
- LimitedReaders.ReadsAreCurrent: does not say that every value written is read, because two writers
  can both see an empty slot (`lab01/ex5.c:69-75`) and the later one overwrites the earlier.
- LimitedReaders: a mutex is a flag that any thread may clear, which is what the group of readers does;
  POSIX leaves that undefined for mutexes.
- The x86 decoder, the page table walk and the allocator are parameters.  The five patched bytes
  lie in one page.  Memory goes on for 19 bytes after the function and after the buffer, and the
  buffer stands clear of the function by as much, so that a copy that runs past its buffer
  does not run into the function it is made from.
- `lab01/ex4.c`: ids run from 1 to the number of writers (line 109) and index an array of that length
  (lines 15 and 60), so that the last writer, and no other, is beyond its end.  The model has an entry
  for every writer.
- `project/symbols.c`: a lookup either fails or gives an address and a size; the fields end_addr and found
  are not modelled.  A failing hijack is claimed to leave the code bytes, the buffers and the hijacked
  flag alone, and in the descriptor the saved bytes; new_addr is then what malloc gave.
- RelocatedFlow.PathMirrored: is about functions in which every rel32 or RIP-relative operand that the copy
  loop meets has four bytes; a 16-bit one, as a 66 prefix makes it on 32 bits, is overwritten with half
  of the new offset.  Nothing is said of a path once it goes on at bytes that a rewritten field runs into
  and that the loop did not take for an instruction: what they become depends on where the copy
  is.  It is about control flow and the fields that are rewritten; what other
  instructions do to registers and memory is the same because their bytes are the same.
- RelocatedFlow.PathLifted: is about the same functions and the same paths.
- RelocatedFlow.PathFieldsMirrored: likewise.
- HashTable: the hash function is any function into the buckets, and allocation succeeds.
- HashTable.Table.Cleanup: needs a table that is not empty, as the code does; the list of processes
  never is.
- ReadAccounting: begin and end are atomic; `unsigned long` counters are in fact changed without a lock.
  The name of the process in an entry is not modelled.
