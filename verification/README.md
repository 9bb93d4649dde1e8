# A verified model of the NachOS kernel, its file system, and two companion programs

This Dafny project models the hard core of the repository and proves what that code is for. It covers
seven things.

* The kernel of NachOS: threads, the ready list, semaphores, locks and conditions as a machine whose
  steps are the regions that run with interrupts off (`Kernel`, `KernelSafety`, `KernelOrder`), the same
  code as objects updated in place (`LiveKernel`), the view of one lock or semaphore that every kernel run
  refines (`Monitor`), and four clients proved over every kernel run: dining philosophers (`Dining`),
  the reusable barrier (`Barrier`), the synchronised list (`SynchList`) and the synchronous disk over
  the asynchronous device (`DiskProtocol`).
* The file system: packed bitmap, header, directory, byte-granular files over sectors, and create, open
  and remove on the disk itself (`Sectors`, `Encoding`, `FileLayout`, `BitMap`, `FileHeader`,
  `Directory`, `OpenFile`, `FileTable`, `FileSystem`), which together refine a map from names to byte
  arrays (`FileRuns`).
* The devices: the linked list (`List`), the event queue and clock (`Interrupt`), the timing of the disk
  (`Disk`), and a request of the synchronous disk followed through all three (`DiskRun`).
* The double-word multiply of the simulated processor (`Mult`).
* The linked-block disk of the ASCII server (`LinkedDisk`).
* The ring of the drawing simulation (`SharedMemory`) and the turn its three threads pass round
  (`HandOff`).
* Loading a program page by page and reading it back through the page table (`AddrSpace`, `Translate`).

## How the pieces fit

A run is a sequence of states in which each follows from the one before by a step of the code. In the
kernel a step is one interrupts-off region; between two regions any thread may be preempted, and an
interrupt may call V at any time. Kernel code is preempted only where interrupts are switched back on
(`machine/interrupt.cc`, OneTick), so the plain code of a client between two kernel calls is taken
together with the second of them. The resumption of a woken thread is a step of its own, which allows
more interleavings than the code has.

The clients' theorems are about runs of the kernel: each takes the kernel's states and actions, a lock
(and a semaphore) of it, and the client's own states, which move exactly when an event of that lock is
one the client's program asks for. `Monitors.RunRefinesMonitor` makes the connection.

The invariant of the file system is `FileTable.Sound`, a property of the bytes on the disk: the free
map marks exactly the sectors of the two system files and of each entry in use, all of these are
distinct, and names differ in their first nine characters. `FileTable.Store` reads the disk as a map
from names to byte arrays.

## Where the code departs from its comments, or from what one would expect

* The comment of `filesys/filesys.cc` puts the largest file at about 3KB; the constants of
  `filesys/filehdr.h` give 30 sectors of 128 bytes, 3840.
* `ComputeLatency` counts a sector as buffered when it will have passed by the next sector boundary, not
  when it has passed; `Disks.HitBeforePassed` says exactly when the two differ.
* The note on `existFile` asks for names shorter than 16 bytes, while `writeFile` refuses only those
  longer than 16; a name of exactly 16 leaves no room for its terminator.
* `writeFile` is to return EXIT_SUCCESS if the file is written; it also does so when the disk ran out of
  blocks on the way, because the failure of `checkBlockAvaible` is the number of a block
  (`LinkedDisks.OverrunDisk`).
* Each tick that finds nothing due takes the first pending interrupt off the queue and puts it back behind
  those due at the same time, so interrupts due together do not fire in the order they were scheduled
  (`Interrupts.LookKeepsOrder`, `LooksRotate`).
* A file in the fifteenth directory slot of the linked-block disk is written and never found.

## Model

| member | source | states |
|---|---|---|
| `Multiply.Mult` | Integrated_Networks_OS_Project/NachOSx64/code/machine/mipssim.cc:635-692 | MULT and MULTU: for every pair of words the two result words are the exact 64-bit product, signed (the most negative operand included) or unsigned |
| `Multiply.ShiftAndAdd` | Integrated_Networks_OS_Project/NachOSx64/code/machine/mipssim.cc:657-677 | the loop with carry detection and early exit yields the exact double-word product of the two unsigned readings |
| `Multiply.NegateDouble` | Integrated_Networks_OS_Project/NachOSx64/code/machine/mipssim.cc:679-688 | the double-word complement is the two's-complement negation modulo 2 to the 64th |
| `Multiply.ProgressStep` | Integrated_Networks_OS_Project/NachOSx64/code/machine/mipssim.cc:663-677 | what one round of the loop keeps: partial sum plus what the remaining bits still contribute equals the product |
| `Multiply.ResultIsProduct` | Integrated_Networks_OS_Project/NachOSx64/code/machine/mipssim.cc:643-692 | magnitude and sign, read back as two signed words, are the product |
| `OpenFiles.OpenFile.ReadAt` | Integrated_Networks_OS_Project/NachOSx64/code/filesys/openfile.cc:114-141 | delivers exactly the requested slice of the logical file, cut at its end, for every alignment: with n the count returned (0, or the smaller of the request and what is left of the file), byte k < n is byte position + k of the file, and the rest of the caller's buffer stays |
| `OpenFiles.OpenFile.WriteAt` | Integrated_Networks_OS_Project/NachOSx64/code/filesys/openfile.cc:144-183 | with n the count returned (0, or the smaller of the request and what is left of the file), byte position + k of the logical file becomes byte k of the caller's buffer for k < n; every other byte of it, and every sector outside it, stays |
| `OpenFiles.OpenFile.Read` | Integrated_Networks_OS_Project/NachOSx64/code/filesys/openfile.cc:72-77 | a read at the seek position, byte by byte, which advances by what was delivered |
| `OpenFiles.OpenFile.Write` | Integrated_Networks_OS_Project/NachOSx64/code/filesys/openfile.cc:80-85 | a write at the seek position, byte by byte, which advances by what was accepted |
| `OpenFiles.OpenFile.Deliver` | Integrated_Networks_OS_Project/NachOSx64/code/filesys/openfile.cc:120-140 | the part of ReadAt past the checks: the sectors that cover the request are read, and the request is copied out of them |
| `OpenFiles.TransferredCount` | Integrated_Networks_OS_Project/NachOSx64/code/filesys/openfile.cc:117-121 | how much a request transfers: nothing for an empty one or one past the end, else the smaller of the request and what is left |
| `OpenFiles.WrittenBytes` | Integrated_Networks_OS_Project/NachOSx64/code/filesys/openfile.cc:144-183 | the file a write leaves, byte by byte: the first bytes of the buffer from the position on, the old ones elsewhere |
| `OpenFiles.SliceBytes` | Integrated_Networks_OS_Project/NachOSx64/code/filesys/openfile.cc:114-141 | what a read delivers, byte by byte: the bytes of the file from the position on |
| `OpenFiles.MergedBufferIsFile` | Integrated_Networks_OS_Project/NachOSx64/code/filesys/openfile.cc:160-177 | partial first and last sectors read back and overlaid with the new bytes agree with the new logical file byte for byte |
| `OpenFiles.MergedWriteBack` | Integrated_Networks_OS_Project/NachOSx64/code/filesys/openfile.cc:160-183 | writing the merged sectors back makes the file the old one with the new bytes spliced in, whichever ends are aligned |
| `BitMaps.StoreBit` | Integrated_Networks_OS_Project/NachOSx64/code/userprog/bitmap.cc:47-65 | setting or clearing a bit of a packed word moves that bit and no other |
| `BitMaps.BitMap.Mark` | Integrated_Networks_OS_Project/NachOSx64/code/userprog/bitmap.cc:47-51 | marking adds one member to the set the words stand for |
| `BitMaps.BitMap.Clear` | Integrated_Networks_OS_Project/NachOSx64/code/userprog/bitmap.cc:61-65 | clearing removes one member |
| `BitMaps.BitMap.Test` | Integrated_Networks_OS_Project/NachOSx64/code/userprog/bitmap.cc:75-83 | membership |
| `BitMaps.BitMap.Find` | Integrated_Networks_OS_Project/NachOSx64/code/userprog/bitmap.cc:95-103 | marks and returns the lowest clear bit; -1 and no change exactly when none is clear |
| `BitMaps.BitMap.NumClear` | Integrated_Networks_OS_Project/NachOSx64/code/userprog/bitmap.cc:112-119 | the number of clear bits is the capacity less the size of the set |
| `BitMaps.WordsRoundTrip` | Integrated_Networks_OS_Project/NachOSx64/code/userprog/bitmap.cc:149-165 | a bitmap written to its file and fetched again is the same |
| `BitMaps.WordsLayout` | Integrated_Networks_OS_Project/NachOSx64/code/userprog/bitmap.cc:149-165 | in the file a word takes four bytes, the least significant first |
| `BitMaps.BitsDouble` | Integrated_Networks_OS_Project/NachOSx64/code/userprog/bitmap.cc:47-65 | bit i of a word is worth 2 to the i |
| `FileHeaders.FileHeader.Allocate` | Integrated_Networks_OS_Project/NachOSx64/code/filesys/filehdr.cc:42-52 | fails, taking nothing, exactly when too few sectors are clear; else the header is usable and exactly its sectors, all distinct and clear before, are newly marked, each of them the lowest that was clear; Find never fails after the count |
| `FileHeaders.FileHeader.Deallocate` | Integrated_Networks_OS_Project/NachOSx64/code/filesys/filehdr.cc:62-68 | gives back exactly the sectors of the file; the assertion that each is marked holds |
| `FileLayout.HeaderRoundTrip` | Integrated_Networks_OS_Project/NachOSx64/code/filesys/filehdr.cc:78-94 | a header written to a sector and fetched again is the same |
| `FileLayout.HeaderBytes` | Integrated_Networks_OS_Project/NachOSx64/code/filesys/filehdr.cc:78-94 | the header sector byte by byte: the length, the number of sectors and the table, least significant byte first |
| `FileLayout.FileBytes` | Integrated_Networks_OS_Project/NachOSx64/code/filesys/filehdr.cc:107-110 | byte k of a file is byte k mod 128 of sector number k / 128 of its table |
| `Sectors.Rounded` | Integrated_Networks_OS_Project/NachOSx64/code/threads/utility.h:45-46 | divRoundDown and divRoundUp give the largest multiple at or below, and the smallest at or above |
| `FileLayout.BytesFrame` | Integrated_Networks_OS_Project/NachOSx64/code/filesys/openfile.cc:113-183 | the contents of a file depend on no sector outside it: disjoint files do not disturb each other |
| `Directories.SameName` | Integrated_Networks_OS_Project/NachOSx64/code/filesys/directory.cc:91-97 | strncmp over nine characters says whether two names agree in their first nine characters |
| `Directories.CopyNameKey` | Integrated_Networks_OS_Project/NachOSx64/code/filesys/directory.cc:130-143 | a name copied into an entry reads back as its first nine characters |
| `Directories.CopiedBytes` | Integrated_Networks_OS_Project/NachOSx64/code/filesys/directory.cc:130-143 | strncpy of nine: the name's characters, then NULs, and the tenth byte stays |
| `Directories.KeyIs` | Integrated_Networks_OS_Project/NachOSx64/code/filesys/directory.cc:91-97 | the name that counts is the whole name or its first nine characters |
| `Directories.BufferHolds` | Integrated_Networks_OS_Project/NachOSx64/code/filesys/directory.cc:91-97 | a name buffer holds the characters before its first NUL, or all nine |
| `Directories.Directory.Find` | Integrated_Networks_OS_Project/NachOSx64/code/filesys/directory.cc:109-116 | the header sector of the first entry in use under the name, -1 exactly when there is none |
| `Directories.Directory.Add` | Integrated_Networks_OS_Project/NachOSx64/code/filesys/directory.cc:130-143 | fails exactly when the name is in use or no entry is free; else the first unused entry takes the name and sector, the others stay |
| `Directories.Directory.Remove` | Integrated_Networks_OS_Project/NachOSx64/code/filesys/directory.cc:154-162 | frees the entry of the name and no other, or fails |
| `Directories.TableRoundTrip` | Integrated_Networks_OS_Project/NachOSx64/code/filesys/directory.cc:64-80 | a table written to its file and fetched again is the same, padding and name buffers included |
| `Directories.TableLayout` | Integrated_Networks_OS_Project/NachOSx64/code/filesys/directory.cc:64-80 | the table byte by byte: twenty for each entry, with flag, sector and name at 0, 4 and 8 |
| `FileTable.TakeSlot` | Integrated_Networks_OS_Project/NachOSx64/code/filesys/filesys.cc:174-215 | taking a free slot for a new name and unmarked sectors keeps the free map, the slots and the names consistent |
| `FileTable.FreeSlot` | Integrated_Networks_OS_Project/NachOSx64/code/filesys/filesys.cc:257-288 | freeing a slot unmarks exactly its sectors and keeps all consistent |
| `FileTable.SectorsInUse` | Integrated_Networks_OS_Project/NachOSx64/code/filesys/filesys.cc:174-288 | conservation: the marked sectors are five for the system plus, for each file, one more than its bytes fill |
| `FileTable.RoomInDirectory` | Integrated_Networks_OS_Project/NachOSx64/code/filesys/filesys.cc:192-200 | an entry is free exactly when fewer than ten files exist |
| `FileTable.LookUp` | Integrated_Networks_OS_Project/NachOSx64/code/filesys/filesys.cc:228-241 | looking a name up in the table finds exactly the file of that name |
| `FileTable.CreateKeepsSound` | Integrated_Networks_OS_Project/NachOSx64/code/filesys/filesys.cc:174-215 | the writes of a creation lead from one consistent disk to another, with the new file and no other change to the store |
| `FileTable.RemoveKeepsSound` | Integrated_Networks_OS_Project/NachOSx64/code/filesys/filesys.cc:257-288 | the writes of a removal lead to a consistent disk without that file |
| `FileTable.WriteKeepsSound` | Integrated_Networks_OS_Project/NachOSx64/code/filesys/openfile.cc:144-183 | writing into the data of one file keeps the disk consistent and changes the store in that file alone |
| `FileSystems.FileSystem.Format` | Integrated_Networks_OS_Project/NachOSx64/code/filesys/filesys.cc:80-143 | formatting an arbitrary disk succeeds and leaves an empty store; exactly the two system files' sectors are marked |
| `FileSystems.FileSystem.Create` | Integrated_Networks_OS_Project/NachOSx64/code/filesys/filesys.cc:175-215 | succeeds exactly when the name (nine characters) is new, fewer than ten files exist and the size fits a header; a failure leaves the disk as it was; a success adds one file of the size, on sectors that were clear |
| `FileSystems.FileSystem.Remove` | Integrated_Networks_OS_Project/NachOSx64/code/filesys/filesys.cc:258-288 | succeeds exactly when the file exists; a failure leaves the disk as it was; a success frees exactly its sectors and drops the name |
| `FileSystems.FileSystem.Open` | Integrated_Networks_OS_Project/NachOSx64/code/filesys/filesys.cc:228-241 | null exactly when there is no such file; else the header of the file of that name |
| `FileSystems.CreateCost` | Integrated_Networks_OS_Project/NachOSx64/code/filesys/filesys.cc:174-215 | a creation lowers the clear count by one plus the size divided by 128, rounded up |
| `FileSystems.CreateThenRemove` | Integrated_Networks_OS_Project/NachOSx64/code/filesys/filesys.cc:174-288 | removing the file just created restores the free set and the store exactly |
| `FileSystems.WriteThrough` | Integrated_Networks_OS_Project/NachOSx64/code/filesys/openfile.cc:144-183 | a write through an open file, on the whole disk: the invariant stays and the store changes in that file alone |
| `FileRuns.Run` | Integrated_Networks_OS_Project/NachOSx64/code/filesys/filesys.cc:80-288 | every sequence of creations, removals, writes and reads from a freshly formatted disk, with all replies, is one of a plain map from names to byte arrays, and the disk at the end is consistent |
| `Kernels.TakeKeepsPlaced` | Integrated_Networks_OS_Project/NachOSx64/code/threads/list.h:271-289 | taking the head of a queue leaves every other thread in exactly one place |
| `Kernels.PutKeepsPlaced` | Integrated_Networks_OS_Project/NachOSx64/code/threads/scheduler.cc:54-60 | putting a thread where its status says it is puts it in exactly one place |
| `KernelSafety.Upping` | Integrated_Networks_OS_Project/NachOSx64/code/threads/synch.cc:88-98 | V: one more on the value, the first waiter ready, no wake-up lost |
| `KernelSafety.Downing` | Integrated_Networks_OS_Project/NachOSx64/code/threads/synch.cc:65-77 | one test in P: sleep, or take one unit; counts balance and no wake-up is lost |
| `KernelSafety.TakingLock` | Integrated_Networks_OS_Project/NachOSx64/code/threads/synch.cc:137-144 | past P the caller becomes the owner of a lock that had none, and the value is 0 |
| `KernelSafety.ReleasingLock` | Integrated_Networks_OS_Project/NachOSx64/code/threads/synch.cc:147-153 | Release leaves no owner and value 1 |
| `KernelSafety.StepKeepsInv` | Integrated_Networks_OS_Project/NachOSx64/code/threads/synch.cc:65-205 | every interrupts-off region keeps the kernel's invariant: placement, balance of every semaphore, no lost wake-up, one owner exactly when the lock is taken |
| `KernelSafety.RunKeepsInv` | Integrated_Networks_OS_Project/NachOSx64/code/threads/synch.cc:64-205 | the invariant holds in every state of every run, for any number of threads, semaphores, locks and conditions |
| `KernelOrder.OnePlace` | Integrated_Networks_OS_Project/NachOSx64/code/threads/thread.cc:178-231 | in every state of every run each live thread is in exactly one place (processor, ready list, one queue), once, and its status agrees |
| `KernelOrder.NoLostWakeup` | Integrated_Networks_OS_Project/NachOSx64/code/threads/synch.cc:64-98 | in every state of every run the value of a semaphore is its first value plus the V's less the completed P's; while threads sleep it is at most the number of woken threads on their way back into P, and 0 when there are none |
| `KernelOrder.StepAdvances` | Integrated_Networks_OS_Project/NachOSx64/code/threads/scheduler.cc:54-74 | each step hands out at most the head of the ready list and otherwise only appends to it; with nobody ready a thread is dispatched only by a Wait, to the first thread that sleeps on the lock given up |
| `KernelOrder.ServedInOrder` | Integrated_Networks_OS_Project/NachOSx64/code/threads/scheduler.cc:54-135 | first in, first out over whole runs: the thread at position k of the ready list runs at the (k+1)-th dispatch |
| `KernelOrder.SignalFindsWaiter` | Integrated_Networks_OS_Project/NachOSx64/code/threads/synch.cc:172-205 | no signal is lost, over whole runs: the caller of Wait is in the queue from the step that gives its lock up until a Signal at its head or a Broadcast reaches it, and that one makes it ready |
| `KernelOrder.StaysQueued` | Integrated_Networks_OS_Project/NachOSx64/code/threads/synch.cc:64-205 | over whole runs a thread that sleeps on a semaphore, lock or condition stays in its queue until a V, Release, Signal or Broadcast reaches it |
| `KernelOrder.WokenInOrder` | Integrated_Networks_OS_Project/NachOSx64/code/threads/synch.cc:64-205 | first in, first out over whole runs, for semaphores, locks and conditions: without a Broadcast the sleeper at position k is woken by the (k+1)-th V, Release or Signal |
| `KernelOrder.OnlySignalsWake` | Integrated_Networks_OS_Project/NachOSx64/code/threads/synch.cc:88-205 | a sleeper leaves its queue only by a V, Release or Signal that finds it at the head, or by a Broadcast |
| `KernelOrder.LeavesAsOwner` | Integrated_Networks_OS_Project/NachOSx64/code/threads/synch.cc:137-183 | Acquire and Wait return only to the thread that then owns the lock, which had no owner before |
| `LiveKernels.LiveKernel.Yield` | Integrated_Networks_OS_Project/NachOSx64/code/threads/thread.cc:179-194 | the code of Yield is the step: the next ready thread runs, the caller goes to the tail |
| `LiveKernels.LiveKernel.Sleep` | Integrated_Networks_OS_Project/NachOSx64/code/threads/thread.cc:216-231 | the code of Sleep up to the switch is the step: blocked, head of the ready list runs, or the machine idles |
| `LiveKernels.LiveKernel.Fork` | Integrated_Networks_OS_Project/NachOSx64/code/threads/thread.cc:89-106 | the code of Fork is the step |
| `LiveKernels.LiveKernel.Finish` | Integrated_Networks_OS_Project/NachOSx64/code/threads/thread.cc:148-158 | the code of Finish is the step |
| `LiveKernels.LiveKernel.ReadyToRun` | Integrated_Networks_OS_Project/NachOSx64/code/threads/scheduler.cc:54-60 | status READY and the tail of the ready list |
| `LiveKernels.LiveKernel.FindNextToRun` | Integrated_Networks_OS_Project/NachOSx64/code/threads/scheduler.cc:70-74 | removes and returns the head of the ready list |
| `LiveKernels.LiveKernel.Run` | Integrated_Networks_OS_Project/NachOSx64/code/threads/scheduler.cc:91-135 | the thread becomes current and running |
| `LiveKernels.LiveKernel.P` | Integrated_Networks_OS_Project/NachOSx64/code/threads/synch.cc:65-77 | one round of P's loop is the step, and keeps the invariant |
| `LiveKernels.LiveKernel.V` | Integrated_Networks_OS_Project/NachOSx64/code/threads/synch.cc:88-98 | the code of V is the step, and keeps the invariant |
| `LiveKernels.LiveKernel.Acquire` | Integrated_Networks_OS_Project/NachOSx64/code/threads/synch.cc:137-144 | one round of P's loop inside Acquire is the step |
| `LiveKernels.LiveKernel.Release` | Integrated_Networks_OS_Project/NachOSx64/code/threads/synch.cc:147-153 | the code of Release is the step |
| `LiveKernels.LiveKernel.Wait` | Integrated_Networks_OS_Project/NachOSx64/code/threads/synch.cc:172-183 | the code of Wait up to its Sleep is the step |
| `LiveKernels.LiveKernel.Signal` | Integrated_Networks_OS_Project/NachOSx64/code/threads/synch.cc:186-194 | the code of Signal is the step |
| `LiveKernels.LiveKernel.Broadcast` | Integrated_Networks_OS_Project/NachOSx64/code/threads/synch.cc:197-205 | the loop of Broadcast is the step: every waiter is made ready, in order |
| `LiveKernels.MayAct` | Integrated_Networks_OS_Project/NachOSx64/code/threads/synch.cc:65-205 | who may take which step: any free running thread calls any routine, the owner's ones only as the owner; a thread inside a routine only goes on with it; a handler may call V at any time |
| `LiveKernels.TestedSemaphore` | Integrated_Networks_OS_Project/NachOSx64/code/threads/synch.cc:65-77 | P field by field: on value 0 the caller is blocked at the tail of the queue and the processor handed on; else the value drops by one and the caller goes on |
| `LiveKernels.RaisedSemaphore` | Integrated_Networks_OS_Project/NachOSx64/code/threads/synch.cc:88-98 | V field by field: the value grows by one, and the head of the queue, if any, goes to the tail of the ready list; nothing else changes |
| `LiveKernels.TestedLock` | Integrated_Networks_OS_Project/NachOSx64/code/threads/synch.cc:137-144 | Acquire field by field: as P, and the caller that takes the unit is the owner |
| `LiveKernels.RaisedLock` | Integrated_Networks_OS_Project/NachOSx64/code/threads/synch.cc:147-153 | Release field by field: no owner, value one more, the first waiter ready |
| `LiveKernels.WaitedOn` | Integrated_Networks_OS_Project/NachOSx64/code/threads/synch.cc:172-183 | Wait is Release, then the tail of the condition's queue, then Sleep |
| `LiveKernels.FirstWoken` | Integrated_Networks_OS_Project/NachOSx64/code/threads/synch.cc:186-194 | Signal field by field: the head of the condition's queue goes to the tail of the ready list; nothing else changes |
| `LiveKernels.AllWoken` | Integrated_Networks_OS_Project/NachOSx64/code/threads/synch.cc:197-205 | Broadcast field by field: the queue becomes empty and all of it, in order, is appended to the ready list, each thread ready |
| `LiveKernels.Rescheduled` | Integrated_Networks_OS_Project/NachOSx64/code/threads/thread.cc:216-231 | the loop of Sleep: the head of the ready list gets the processor, if there is one |
| `LiveKernels.Yielded` | Integrated_Networks_OS_Project/NachOSx64/code/threads/thread.cc:179-194 | Yield field by field: the caller to the tail of the ready list, its head running |
| `LiveKernels.ForkedAndWoken` | Integrated_Networks_OS_Project/NachOSx64/code/threads/thread.cc:89-106 | Fork appends the new thread to the ready list; the idle loop takes its head |
| `Monitors.KernelRefinesMonitor` | Integrated_Networks_OS_Project/NachOSx64/code/threads/synch.cc:137-205 | each kernel step is, for each lock, an event of a monitor that knows only owner and condition queues |
| `Monitors.KernelRefinesSemaphore` | Integrated_Networks_OS_Project/NachOSx64/code/threads/synch.cc:64-98 | each kernel step is an event of each semaphore; P passes only on a positive value |
| `Monitors.RunRefinesMonitor` | Integrated_Networks_OS_Project/NachOSx64/code/threads/synch.cc:137-205 | every run of the kernel is, seen through one lock, a run of its monitor |
| `DiningPhilosophers.StepKeepsInv` | Integrated_Networks_OS_Project/NachOSx64/code/threads/diningph.cc:19-56 | each stretch of pickup, putdown and test keeps the table's invariant |
| `DiningPhilosophers.RunKeepsDining` | Integrated_Networks_OS_Project/NachOSx64/code/threads/diningph.cc:19-56 | it holds in every state of every run of the kernel in which five threads dine |
| `DiningPhilosophers.Philosophers` | Integrated_Networks_OS_Project/NachOSx64/code/threads/diningph.cc:19-56 | at a table where 4 sits beside 0: no two neighbours eat; while the lock is free each hungry philosopher has an eating neighbour and is queued on its own condition; pickup returns only to an eating philosopher |
| `DiningPhilosophers.PickupOutcome` | Integrated_Networks_OS_Project/NachOSx64/code/threads/diningph.cc:19-30 | over every run: pickup makes the caller eat when neither neighbour does, else hungry and waiting, and changes nobody else |
| `DiningPhilosophers.PutdownOutcome` | Integrated_Networks_OS_Project/NachOSx64/code/threads/diningph.cc:33-56 | over every run: putdown makes the caller think, then lets the left neighbour, then the right one, eat and signals it exactly when it is hungry and its other neighbour does not eat |
| `DiningPhilosophers.OtherMoves` | Integrated_Networks_OS_Project/NachOSx64/code/threads/diningph.cc:19-43 | over every run: the other stretches change no state and follow one another as in the code |
| `DiningPhilosophers.OnlyMovesChange` | Integrated_Networks_OS_Project/NachOSx64/code/threads/diningph.cc:19-56 | over every run: a state changes only by a stretch of one of these |
| `Barriers.StepKeepsInv` | Integrated_Networks_OS_Project/NachOSx64/code/threads/synch.cc:240-250 | each stretch of Barrier::Wait keeps the account of generations, counter and queue |
| `Barriers.RunKeepsBarrier` | Integrated_Networks_OS_Project/NachOSx64/code/threads/synch.cc:240-250 | it holds in every state of every run, for any number of threads, early re-entry included |
| `Barriers.Generations` | Integrated_Networks_OS_Project/NachOSx64/code/threads/synch.cc:240-250 | every earlier generation had exactly maxCount arrivals and none of its members still waits on the condition; who returns was one of them; once nobody is inside, exactly those have returned; while the lock is free the queue is as long as the counter, short of maxCount |
| `Barriers.ReturnsTogether` | Integrated_Networks_OS_Project/NachOSx64/code/threads/synch.cc:240-250 | no call returns before maxCount threads have arrived in its generation |
| `Barriers.MayEnter` | Integrated_Networks_OS_Project/NachOSx64/code/threads/synch.cc:240-241 | any thread that is not inside may call Wait |
| `Barriers.NewBarrier` | Integrated_Networks_OS_Project/NachOSx64/code/threads/synch.cc:228-234 | runs start from a new barrier of any count from 1 on |
| `Barriers.ArrivalCounts` | Integrated_Networks_OS_Project/NachOSx64/code/threads/synch.cc:240-250 | over every run: an arrival adds one to the counter and itself to its generation; it broadcasts exactly when it is the maxCount-th, else it waits |
| `Barriers.ReturnResets` | Integrated_Networks_OS_Project/NachOSx64/code/threads/synch.cc:240-250 | over every run: a return releases the lock; the one that broadcast sets the counter to 0 and opens the next generation |
| `Barriers.OnlyCallsCount` | Integrated_Networks_OS_Project/NachOSx64/code/threads/synch.cc:240-250 | over every run: counter and records change only by these |
| `SynchLists.StepKeepsInv` | Integrated_Networks_OS_Project/NachOSx64/code/threads/synchlist.h:80-111 | each stretch of Append and Remove keeps order and the account of woken consumers |
| `SynchLists.FifoQueue` | Integrated_Networks_OS_Project/NachOSx64/code/threads/synchlist.h:80-111 | in every state of every run: removed items, then the list, are the appended items in order; while the lock is free and a consumer sleeps, every item has a woken consumer on its way |
| `SynchLists.RemoveDelivers` | Integrated_Networks_OS_Project/NachOSx64/code/threads/synchlist.h:98-111 | Remove never takes from an empty list and delivers the next item in order |
| `SynchLists.MayCall` | Integrated_Networks_OS_Project/NachOSx64/code/threads/synchlist.h:80-106 | any thread that is not inside may call Append with any item, or Remove |
| `SynchLists.AppendAppends` | Integrated_Networks_OS_Project/NachOSx64/code/threads/synchlist.h:80-89 | over every run: the step of a thread with an item to append puts that item at the end of the list, and signals |
| `SynchLists.RemoveTakesOrWaits` | Integrated_Networks_OS_Project/NachOSx64/code/threads/synchlist.h:98-111 | over every run: a thread that tests the list takes its first item and leaves, or, on an empty list, waits |
| `SynchLists.OnlyCallsChange` | Integrated_Networks_OS_Project/NachOSx64/code/threads/synchlist.h:80-111 | over every run: the list grows only by an Append and shrinks only by a Remove that returns |
| `DiskProtocol.RunKeepsDisk` | Integrated_Networks_OS_Project/NachOSx64/code/filesys/synchdisk.cc:72-109 | the protocol of lock, request, semaphore and interrupt keeps its invariant in every run, for any number of threads |
| `DiskProtocol.OneRequestAtATime` | Integrated_Networks_OS_Project/NachOSx64/code/filesys/synchdisk.cc:72-109 | a request is issued only while the device is inactive, at most one completion is pending, and the P that passes is matched by its own completion |
| `DiskProtocol.ReadsLastWrite` | Integrated_Networks_OS_Project/NachOSx64/code/filesys/synchdisk.cc:72-97 | what a read returns is what the log of all writes left in the sector |
| `DiskProtocol.MayAsk` | Integrated_Networks_OS_Project/NachOSx64/code/filesys/synchdisk.cc:72-97 | any thread that is not inside may call ReadSector or WriteSector for any sector |
| `DiskProtocol.IssueTransfers` | Integrated_Networks_OS_Project/NachOSx64/code/filesys/synchdisk.cc:72-97 | over every run: a write request stores the caller's data in its sector and nowhere else; a read request changes no sector and gives the caller what its sector holds |
| `DiskProtocol.OnlyRequestsTransfer` | Integrated_Networks_OS_Project/NachOSx64/code/filesys/synchdisk.cc:72-109 | over every run: no other step touches a sector or the log, and only the interrupt of an active request completes one |
| `DiskProtocol.ReplayIs` | Integrated_Networks_OS_Project/NachOSx64/code/filesys/synchdisk.cc:72-97 | what a log leaves in a sector is the data of its last write to the sector, or what was there at first |
| `Lists.List.SortedInsert` | Integrated_Networks_OS_Project/NachOSx64/code/threads/list.h:231-254 | walking and relinking the nodes inserts before the first larger key, and nothing else changes |
| `Lists.List.SortedRemove` | Integrated_Networks_OS_Project/NachOSx64/code/threads/list.h:271-289 | unlinks and returns the first entry; nothing exactly when the list is empty |
| `Lists.List.Append` | Integrated_Networks_OS_Project/NachOSx64/code/threads/list.h:127-138 | links an entry in behind the last |
| `Lists.List.Prepend` | Integrated_Networks_OS_Project/NachOSx64/code/threads/list.h:154-165 | links an entry in before the first |
| `Lists.InsertSorted` | Integrated_Networks_OS_Project/NachOSx64/code/threads/list.h:231-254 | insertion keeps a sorted list sorted and adds exactly the new entry, before the first larger key |
| `Interrupts.Interrupt.CheckIfDue` | Integrated_Networks_OS_Project/NachOSx64/code/machine/interrupt.cc:291-336 | fires the head when it is due (never early) or idle time can be skipped to it, else puts it back; schedules exactly what the handler asks for; clock and tick counts add up |
| `Interrupts.Interrupt.FireAllDue` | Integrated_Networks_OS_Project/NachOSx64/code/machine/interrupt.cc:165-170 | draining ends, because handlers schedule strictly in the future; what was due fires in the order of the queue, and nothing due is left, except that an idle machine leaves a time slice that is pending alone; a drain that finds nothing due is a look at the queue |
| `Interrupts.Interrupt.OneTick` | Integrated_Networks_OS_Project/NachOSx64/code/machine/interrupt.cc:151-179 | system mode adds 10 to the clock and to systemTicks, user mode 1 to the clock and to userTicks; everything due then fires at that time in the order of the queue; if nothing was overdue before, nothing fires a full tick late, the time slice by no more than one; a switch is asked for exactly when one was pending or the handler of an event fired now wants it |
| `Interrupts.Interrupt.SetLevel` | Integrated_Networks_OS_Project/NachOSx64/code/machine/interrupt.cc:115-127 | switching interrupts on, and only that, advances the clock, by 10 and systemTicks with it in system mode, else by 1 and userTicks, and fires what is then due |
| `Interrupts.AskedBySome` | Integrated_Networks_OS_Project/NachOSx64/code/machine/interrupt.cc:163-178 | a slice is asked for when the response to some event fired since the start of the drain wants it |
| `Interrupts.Interrupt.Idle` | Integrated_Networks_OS_Project/NachOSx64/code/machine/interrupt.cc:211-234 | moves the clock to the next interrupt, and, if nothing was overdue, what then fires is exactly on time; halts exactly when none but the time slice is pending |
| `Interrupts.Interrupt.Schedule` | Integrated_Networks_OS_Project/NachOSx64/code/machine/interrupt.cc:265-275 | adds an event strictly in the future, nothing becomes due by it |
| `Interrupts.FiresOnce` | Integrated_Networks_OS_Project/NachOSx64/code/machine/interrupt.cc:265-336 | in any state of the queue and clock: an event scheduled once is pending until it has fired and not after, fires at most once, and has fired once its time has come and nothing due is pending |
| `Interrupts.NothingDue` | Integrated_Networks_OS_Project/NachOSx64/code/machine/interrupt.cc:151-179 | after a drain every pending event lies in the future |
| `Interrupts.LookKeepsOrder` | Integrated_Networks_OS_Project/NachOSx64/code/machine/interrupt.cc:303-312 | a look at any queue too early keeps its order exactly when the first event has no tie that differs from it |
| `Interrupts.LookRotates` | Integrated_Networks_OS_Project/NachOSx64/code/machine/interrupt.cc:303-312 | such a look puts the first event behind all that are due with it and moves no other |
| `Interrupts.LooksRotate` | Integrated_Networks_OS_Project/NachOSx64/code/machine/interrupt.cc:303-312 | look after look the events due first go round, and after as many looks as there are of them the order is back |
| `Interrupts.Interrupt.FireAfterLook` | Integrated_Networks_OS_Project/NachOSx64/code/machine/interrupt.cc:291-336 | from any queue: after one look too early the events due first fire with the head last, in the order they were scheduled exactly when the head has no tie that differs from it |
| `Interrupts.Interrupt.TiesChangePlaces` | Integrated_Networks_OS_Project/NachOSx64/code/machine/interrupt.cc:308-312 | for instance, of two different events due at the same time the second fires first |
| `Disks.LatencyBounds` | Integrated_Networks_OS_Project/NachOSx64/code/machine/disk.cc:233-253 | for every time, head position and sector the latency lies between 500 and 31999 |
| `Disks.UnbufferedEnds` | Integrated_Networks_OS_Project/NachOSx64/code/machine/disk.cc:180-253 | an unbuffered request seeks 500 ticks for each track crossed and ends on a sector boundary with the head just past the sector, after its first full pass once the track is reached |
| `Disks.SeekPerTrack` | Integrated_Networks_OS_Project/NachOSx64/code/machine/disk.cc:179-194 | a seek takes 500 ticks for each track crossed, in either direction |
| `Disks.LatencyIs` | Integrated_Networks_OS_Project/NachOSx64/code/machine/disk.cc:233-253 | 500 exactly for a read on the current track whose sector has passed wholly since the buffer was started, by the next boundary; else the unbuffered time |
| `Disks.BufferHolds` | Integrated_Networks_OS_Project/NachOSx64/code/machine/disk.cc:233-246 | a track-buffer hit, exactly: a read on the current track whose sector has passed wholly under the head since the buffer was started, by the next sector boundary |
| `Disks.HitBeforePassed` | Integrated_Networks_OS_Project/NachOSx64/code/machine/disk.cc:233-246 | exactly when the sector of a hit has already passed by the time of the request |
| `Disks.HitOnFirstPass` | Integrated_Networks_OS_Project/NachOSx64/code/machine/disk.cc:233-246 | a hit ten ticks into the very first pass: the sector has not yet passed |
| `Disks.BufferNeverSlower` | Integrated_Networks_OS_Project/NachOSx64/code/machine/disk.cc:233-253 | the buffered path never costs more than the unbuffered one |
| `Disks.Disk.ReadRequest` | Integrated_Networks_OS_Project/NachOSx64/code/machine/disk.cc:116-133 | transfers at once, completes after the latency, and keeps the buffer's start on a sector boundary and not in the future of the next request |
| `Disks.Disk.WriteRequest` | Integrated_Networks_OS_Project/NachOSx64/code/machine/disk.cc:136-153 | the same for a write |
| `LinkedDisks.LinkedDisk.WriteFile` | ASCII_Server_Client_Project/TenedorASCIICliente/src/FileSystem/FileSystem.c:55-83 | on a disk holding some files: refuses empty, long and found names without change; with room, the disk then holds the files and the new one; without room for all of it, block 1 is handed out twice; which of these reports success |
| `LinkedDisks.WriteAll` | ASCII_Server_Client_Project/TenedorASCIICliente/src/FileSystem/FileSystem.c:55-161 | every sequence of writes while there is room: the disk holds the files it had and the accepted ones, in order |
| `LinkedDisks.StoreAndGet` | ASCII_Server_Client_Project/TenedorASCIICliente/src/Server/ASCIIServer.cc:169-185 | any files that fit, stored on a fresh disk: GET finds exactly the names of the first fourteen and returns the whole content |
| `LinkedDisks.OverrunDisk` | ASCII_Server_Client_Project/TenedorASCIICliente/src/FileSystem/FileSystem.c:116-161 | a file of 254 times 255 bytes on an empty disk: reported as written, but block 1 follows the last block, and the disk holds no list of files |
| `LinkedDisks.EmptyDiskRoom` | ASCII_Server_Client_Project/TenedorASCIICliente/src/FileSystem/FileSystem.c:116-161 | an empty disk has room for a file exactly when it is shorter than that |
| `LinkedDisks.SixteenthEntry` | ASCII_Server_Client_Project/TenedorASCIICliente/src/FileSystem/FileSystem.c:85-114 | with fifteen slots taken the next entry lands on the counter and on the first sixteen bytes of block 1, and the disk holds no list of files any more |
| `LinkedDisks.LinkedDisk.CheckBlockAvailable` | ASCII_Server_Client_Project/TenedorASCIICliente/src/FileSystem/FileSystem.c:237-275 | the first hole, else the fresh block of the counter, else the failure code 1 |
| `LinkedDisks.AllocateTakes` | ASCII_Server_Client_Project/TenedorASCIICliente/src/FileSystem/FileSystem.c:237-275 | byte by byte: the first hole becomes an end mark, else the counter grows by one, else nothing changes and the block is 1 |
| `LinkedDisks.LinkedDisk.ExistFile` | ASCII_Server_Client_Project/TenedorASCIICliente/src/FileSystem/FileSystem.c:199-218 | a name is found exactly when one of the first fourteen slots holds it; the empty name always, with the first byte of the disk for its block |
| `LinkedDisks.LinkedDisk.AllocateInDirectory` | ASCII_Server_Client_Project/TenedorASCIICliente/src/FileSystem/FileSystem.c:85-114 | the first slot without a first block gets the name and the allocated block; with none left, the bytes behind the slots do |
| `LinkedDisks.LinkedDisk.AllocateContent` | ASCII_Server_Client_Project/TenedorASCIICliente/src/FileSystem/FileSystem.c:116-161 | writes the chain block by block; all of it exactly when the blocks suffice, and success exactly when the file alone needs no more than 255 |
| `LinkedDisks.GrowingStep` | ASCII_Server_Client_Project/TenedorASCIICliente/src/FileSystem/Structures.c:24-43 | one 255-byte part, end detection included, leads from a partly written file to the next stage |
| `LinkedDisks.LinkedDisk.Get` | ASCII_Server_Client_Project/TenedorASCIICliente/src/Server/ASCIIServer.cc:169-185 | a name is found exactly when one of the first fourteen files bears it; reading its chain ends after length/255 + 1 blocks and returns the content |
| `LinkedDisks.ChainOf` | ASCII_Server_Client_Project/TenedorASCIICliente/src/FileSystem/FileSystem.c:116-161 | the blocks of a file follow one another to the mark 255, each holding its part: the chain is acyclic |
| `LinkedDisks.ChainsApart` | ASCII_Server_Client_Project/TenedorASCIICliente/src/FileSystem/FileSystem.c:116-161 | the chains of two files share no block |
| `LinkedDisks.OwnerOf` | ASCII_Server_Client_Project/TenedorASCIICliente/src/FileSystem/FileSystem.c:116-161 | every block from 1 up to the counter belongs to a file |
| `LinkedDisks.SlotLayout` | ASCII_Server_Client_Project/TenedorASCIICliente/src/FileSystem/FileSystem.c:85-114 | block 0 byte by byte: names padded to sixteen, first blocks, zeros in free slots, and the counter in byte 255 |
| `LinkedDisks.BlockLayout` | ASCII_Server_Client_Project/TenedorASCIICliente/src/FileSystem/FileSystem.c:116-161 | the other blocks byte by byte: 255 of a file, padded with zeros, then the next block or 255 |
| `LinkedDisks.CounterIs` | ASCII_Server_Client_Project/TenedorASCIICliente/src/FileSystem/FileSystem.c:116-161 | a file takes length/255 + 1 blocks, the first of them block 1 |
| `LinkedDisks.FoundUnlessLast` | ASCII_Server_Client_Project/TenedorASCIICliente/src/FileSystem/FileSystem.c:199-218 | a stored file is found exactly when it is not in the fifteenth slot |
| `LinkedDisks.OverrunIsNoImage` | ASCII_Server_Client_Project/TenedorASCIICliente/src/FileSystem/FileSystem.c:237-275 | the result of a write that did not fit is no disk on which each file has blocks of its own, so the condition for success is exact |
| `SharedMemories.SharedMemory.Write` | Integrated_Networks_OS_Project/Simulacion/src/SharedMemory.cpp:20-31 | what a message leaves in every cell of the ring, of any length: its last time round, a NUL, and behind it the time round before, or what was there |
| `SharedMemories.SharedMemory.Read` | Integrated_Networks_OS_Project/Simulacion/src/SharedMemory.cpp:33-43 | the characters up to the first NUL, and the index past it |
| `SharedMemories.SharedMemory.WriteThenRead` | Integrated_Networks_OS_Project/Simulacion/src/SharedMemory.cpp:20-43 | the round trip returns the message exactly when it is at most 1023 characters long, else what is left of its last time round |
| `HandOffs.ClientKeepsInv` | Integrated_Networks_OS_Project/Simulacion/src/Client.cpp:8-38 | each step of the client keeps the hand-off's invariant |
| `HandOffs.ForkKeepsInv` | Integrated_Networks_OS_Project/Simulacion/src/Tenedor.cpp:7-59 | each step of the fork keeps it |
| `HandOffs.ServerKeepsInv` | Integrated_Networks_OS_Project/Simulacion/src/DrawingServer.cpp:10-33 | each step of the server keeps it |
| `HandOffs.OneTurn` | Integrated_Networks_OS_Project/Simulacion/src/Tenedor.cpp:7-59 | in every run semaphore counts plus threads with the turn never exceed one; the cells between the indices hold at most one message, with a NUL in the last of them exactly when it is complete and nowhere else |
| `HandOffs.NoDeadlock` | Integrated_Networks_OS_Project/Simulacion/src/Tenedor.cpp:7-59 | in every state of every run some thread can move, exactly until the fork is done |
| `HandOffs.ReadsWhatWasWritten` | Integrated_Networks_OS_Project/Simulacion/src/SharedMemory.cpp:20-43 | every read returns exactly the message its counterpart has just written, across wrap-around, one character at a time under every interleaving |
| `HandOffs.MessageWritten` | Integrated_Networks_OS_Project/Simulacion/src/SharedMemory.cpp:20-31 | over every run: a thread that ends its write leaves the whole message in the cells from the read index on, as its own |
| `HandOffs.OnlyWritersChange` | Integrated_Networks_OS_Project/Simulacion/src/SharedMemory.cpp:20-43 | over every run: the message in the ring changes only by such a step |
| `AddrSpaces.AddrSpace.constructor` | Integrated_Networks_OS_Project/NachOSx64/code/userprog/addrspace.cc:66-151 | with disjoint segments in range and frames enough: distinct frames that were free, every page valid, writable, unused and clean, every byte of code and initialised data where the program looks for it; all else is as the clearing of low memory leaves it |
| `AddrSpaces.AddrSpace.LoadSegment` | Integrated_Networks_OS_Project/NachOSx64/code/userprog/addrspace.cc:107-148 | page by page, a segment is copied as one flat piece; nothing else the program sees changes |
| `AddrSpaces.LoadedMore` | Integrated_Networks_OS_Project/NachOSx64/code/userprog/addrspace.cc:115-125 | one page more of a segment, in a frame anywhere |
| `AddrSpaces.PagesEnough` | Integrated_Networks_OS_Project/NachOSx64/code/userprog/addrspace.cc:77-82 | as many pages as code, data and a stack of 1024 bytes fill |
| `AddrSpaces.RestZeroed` | Integrated_Networks_OS_Project/NachOSx64/code/userprog/addrspace.cc:103-148 | low physical memory is cleared, and bytes in other programs' frames or outside the segments otherwise stay |
| `Translation.Machine.Translate` | Integrated_Networks_OS_Project/NachOSx64/code/machine/translate.cc:187-255 | each outcome with its own condition: misaligned or beyond the table, page not valid, write to a read-only page, frame that does not exist; else the physical address is 128 times the frame plus the offset, and only use and dirty bits change |
| `Translation.Machine.ReadMem` | Integrated_Networks_OS_Project/NachOSx64/code/machine/translate.cc:88-122 | the little-endian value of the bytes, one byte signed, two unsigned |
| `Translation.Machine.WriteMem` | Integrated_Networks_OS_Project/NachOSx64/code/machine/translate.cc:138-169 | stores exactly the bytes of the access |
| `Translation.WrittenReadBack` | Integrated_Networks_OS_Project/NachOSx64/code/machine/translate.cc:88-169 | what was written reads back, cut to the size of the access |
| `Translation.StoredBytes` | Integrated_Networks_OS_Project/NachOSx64/code/machine/translate.cc:150-166 | a value is stored with its least significant byte first |
| `Translation.FetchedValue` | Integrated_Networks_OS_Project/NachOSx64/code/machine/translate.cc:101-118 | one byte is read signed, two unsigned, four signed, the first byte the least significant |
| `Translation.LoadedWide` | Integrated_Networks_OS_Project/NachOSx64/code/machine/translate.cc:88-122 | an aligned access of two or four bytes to a loaded segment finds those bytes of the file in their order |
| `Translation.LoadedWritable` | Integrated_Networks_OS_Project/NachOSx64/code/machine/translate.cc:187-255 | every aligned address of a loaded program is accessible, for writing too |
| `Translation.LoadAndStore` | Integrated_Networks_OS_Project/NachOSx64/code/machine/translate.cc:138-169 | end to end: a loaded program stores at any aligned address of its pages and reads the value back, cut to size, without an error |
| `Translation.LoadAndRead` | Integrated_Networks_OS_Project/NachOSx64/code/machine/translate.cc:88-122 | end to end: a program is loaded and one, two or four bytes of a segment are read at virtualAddr + k through its page table, without an error; the value is the sum of the bytes of the file from inFileAddr + k on, weighted 1, 256, 65536 and 16777216 |
| `Translation.LoadedBytesReadable` | Integrated_Networks_OS_Project/NachOSx64/code/machine/translate.cc:187-255 | every byte k of a loaded segment is accessible at virtualAddr + k and equals byte inFileAddr + k of the file |
| `BitMaps.BitMap.constructor` | Integrated_Networks_OS_Project/NachOSx64/code/userprog/bitmap.cc:20-28 | a bitmap with no bit set, whatever the memory held |
| `BitMaps.BitMap.FetchFrom` | Integrated_Networks_OS_Project/NachOSx64/code/userprog/bitmap.cc:149-152 | the packed words are what the file holds, as far as it reaches |
| `BitMaps.BitMap.WriteBack` | Integrated_Networks_OS_Project/NachOSx64/code/userprog/bitmap.cc:162-165 | the file holds the packed words, as far as it reaches; no other sector changes |
| `OpenFiles.OpenFile.Seek` | Integrated_Networks_OS_Project/NachOSx64/code/filesys/openfile.cc:53-56 | the next Read or Write starts there |
| `FileHeaders.FileHeader.FetchFrom` | Integrated_Networks_OS_Project/NachOSx64/code/filesys/filehdr.cc:78-81 | the header is what its sector holds |
| `FileHeaders.FileHeader.WriteBack` | Integrated_Networks_OS_Project/NachOSx64/code/filesys/filehdr.cc:91-94 | the sector holds the header; no other changes |
| `Directories.Directory.FindIndex` | Integrated_Networks_OS_Project/NachOSx64/code/filesys/directory.cc:91-97 | the first entry in use under the name, -1 exactly when there is none |
| `Directories.Directory.constructor` | Integrated_Networks_OS_Project/NachOSx64/code/filesys/directory.cc:38-44 | a table with no entry in use |
| `Directories.Directory.FetchFrom` | Integrated_Networks_OS_Project/NachOSx64/code/filesys/directory.cc:64-67 | the table is what the file holds, as far as it reaches |
| `Directories.Directory.WriteBack` | Integrated_Networks_OS_Project/NachOSx64/code/filesys/directory.cc:77-80 | the file holds the table, as far as it reaches; no other sector changes |
| `FileSystems.FileSystem.Mount` | Integrated_Networks_OS_Project/NachOSx64/code/filesys/filesys.cc:138-142 | opening the two system files of a consistent disk gives its store |
| `FileSystems.FileSystem.Claim` | Integrated_Networks_OS_Project/NachOSx64/code/filesys/filesys.cc:183-204 | the part of Create in memory: succeeds exactly when name, entry and sectors are to be had, and claims them, the lowest clear sector for the header |
| `FileSystems.FileSystem.Release` | Integrated_Networks_OS_Project/NachOSx64/code/filesys/filesys.cc:265-280 | the part of Remove in memory: every sector is found marked, and exactly the file's are given back |
| `FileRuns.Perform` | Integrated_Networks_OS_Project/NachOSx64/code/filesys/filesys.cc:174-288 | each single request behaves like one on the plain map |
| `LiveKernels.LiveKernel.Wakeup` | Integrated_Networks_OS_Project/NachOSx64/code/threads/thread.cc:226-230 | the idle loop of Sleep goes on with the head of the ready list |
| `LiveKernels.LiveKernel.Resume` | Integrated_Networks_OS_Project/NachOSx64/code/threads/synch.cc:70-77 | a woken thread tests the value again, or takes the lock again |
| `Interrupts.Interrupt.CallHandler` | Integrated_Networks_OS_Project/NachOSx64/code/machine/interrupt.cc:326-331 | the handler's alarms are scheduled in order, and its wish for a time slice is noted |
| `Disks.Disk.ComputeLatency` | Integrated_Networks_OS_Project/NachOSx64/code/machine/disk.cc:233-253 | computes the latency the lemmas speak of |
| `Disks.Disk.UpdateLast` | Integrated_Networks_OS_Project/NachOSx64/code/machine/disk.cc:262-271 | after a seek the buffer starts at the sector boundary at which the head arrives |
| `Disks.HeadMoves` | Integrated_Networks_OS_Project/NachOSx64/code/machine/disk.cc:262-271 | the head is over the sector asked for; the buffer restarts exactly after a seek, at the first boundary at or after the arrival |
| `Disks.Disk.HandleInterrupt` | Integrated_Networks_OS_Project/NachOSx64/code/machine/disk.cc:162-166 | at the time the request is done, or later, the device becomes inactive, with its buffer started in the past |
| `DiskRuns.Serve` | Integrated_Networks_OS_Project/NachOSx64/code/machine/disk.cc:115-166 | a request and whatever the machine then does: its interrupt is the event scheduled for now plus the latency, pending until then, afterwards fired, never early and less than a tick late; issue and interrupt are the steps of the protocol |
| `DiskRuns.OperateAll` | Integrated_Networks_OS_Project/NachOSx64/code/machine/interrupt.cc:151-275 | any sequence of switching interrupts, instructions, idling and scheduling keeps the queue and clock punctual |
| `DiskRuns.PendingOrFired` | Integrated_Networks_OS_Project/NachOSx64/code/machine/interrupt.cc:151-336 | a scheduled event other than a time slice is pending before it is due, and has fired in time afterwards |
| `LinkedDisks.LinkedDisk.Mount` | ASCII_Server_Client_Project/TenedorASCIICliente/src/FileSystem/FileSystem.c:45-52 | a disk that holds no files |
| `LinkedDisks.LinkedDisk.ExtractBlock` | ASCII_Server_Client_Project/TenedorASCIICliente/src/FileSystem/FileSystem.c:277-307 | the block of the number, or the first block of the file |
| `LinkedDisks.LinkedDisk.WriteBlock` | ASCII_Server_Client_Project/TenedorASCIICliente/src/FileSystem/FileSystem.c:126-152 | one part of the content and the end mark or a newly allocated next block |
| `AddrSpaces.AddrSpace.AllocateFrames` | Integrated_Networks_OS_Project/NachOSx64/code/userprog/addrspace.cc:93-101 | each page gets a frame of its own that was free |

## Left out

- Machine integers outside `Mult` and `Encoding`: positions, sizes, clock ticks and counters are unbounded, so overflow of `position + numBytes` or of the clock is not modelled.
- FileHeaders.FileHeader.Allocate: takes a size above 30 sectors only when that many are not clear, because otherwise the source, which never compares the number of sectors with the size of its table, writes past it; negative sizes are not taken.
- FileSystems.FileSystem.Create: takes a size above 3840 bytes only when the call fails for another reason, as for `Allocate`.
- FileSystems.FileSystem.Claim: takes a size above 3840 bytes only when the call fails, as for `Allocate`.
- Negative positions in `ReadAt` and `WriteAt`: the source does not check for them and would index outside its tables; negative byte counts are modelled and transfer nothing.
- Concurrent use of the file system: the source says that it assumes none; each call runs alone.
- Files open while they are removed, and two open files on one header: `FileRuns` opens, uses and closes a file within one request.
- `Semaphore::Destroy` frees a semaphore, `Mutex` wraps a lock, `SynchList::Apply` calls a function on each item under the lock, and the `Print` and `List` members write to the terminal: none of them is modelled.
- Context switch assembly, stacks, saved registers and the deletion of finished threads: Run switches to the chosen thread and no more.
- KernelOrder.ServedInOrder: says which dispatch runs a thread, not that the dispatch comes; nothing here claims progress or termination of threads.
- Barrier counts below 1: the source never reaches such a count and every caller waits; the model takes counts of at least 1.
- More than one thread per philosopher: each philosopher is played by one thread that calls pickup and putdown in turn.
- Interrupts.Interrupt.CheckIfDue: what a handler does is an arbitrary function of the history of fired interrupts, so devices are not modelled one by one; calls of V by handlers are steps of the kernel model.
- DiskRuns.Serve: marks the device inactive after all the operations and not at the tick at which its event fires, because a handler is a function of the history; so no second request is issued within one call.
- The thread switch in `OneTick`: the model says whether it is asked for; the switch is a step of the kernel model.
- Buffering of stdio, failing `fopen` and `fseek`, and the byte by which `extractBlock` overruns its buffer: writes are immediate and buffers are as large as they are used.
- LinkedDisks.LinkedDisk.WriteFile: does not take names of exactly sixteen bytes, whose copy overruns a buffer of sixteen, and does not follow a sixteenth file past its entry, the damage of which `LinkedDisks.SixteenthEntry` states.
- LinkedDisks.LinkedDisk.ExistFile: for names of sixteen bytes and more it asks that each slot's name ends within the slot, as on every disk that holds files; else the source compares memory behind its buffer.
- LinkedDisks.LinkedDisk.Get: does not take the empty name, for which the source reads whichever block the first byte of the disk names, whether there is one or not.
- LinkedDisks.LinkedDisk.ExtractBlock: takes block numbers the disk has; past its end the source returns what its buffer held.
- Files for the linked-block disk that contain NUL bytes: the source reads blocks back as C strings.
- HandOffs.NoDeadlock: does not say that all three threads end, because they do not: when the client ends nobody signals the server.
- The adapters and protocol handlers that compute the messages: any message may follow any other.
- Object file headers, byte swapping and the magic number: the loader takes a header that has been read.
- The TLB path of `Translate`, sharing of frames by Fork, and the destructor of address spaces.
- Sockets, servers, protocol translation, the instruction loop of the processor other than Mult, system calls, console and network devices.
