# SOS paging, storage, printing, timing and lifetimes

A Dafny model of the SOS operating system server and its C library, with proofs
about the parts that are hardest to get right. Running
`dafny verify dfyconfig.toml` checks all of it.

## What is modelled

**Demand paging and swapping** (`PagingState`, `PagingOps`, `PagingEvict`,
`PagingRetire`, `PagingFault`, `PagingPut`, `PagingGet`, `PagingDelete`,
`PagingMachine`, `PagingTheorems`, `PagingAnswer`, `PagingRelease`,
`PagingLedger`, `PagingLate`, `PagingStart`, `PagingKill`, `PagingWaiting`,
`PagingWitnesses`, `Swapper`). The state holds the page tables, the queue items, both queues, the frame stack, the slot map, the hardware mappings held by L4, the contents of
frames and swap file, and the NFS calls in flight. L4 is a map from (thread,
page) to (frame, right); NFS is a set of requests that the server may carry out
in any order, after any delay, and, for writes, repeatedly until they are
acknowledged. A process that the pager has not answered makes no step.
`PagingOps` gives each transition as a function, `Swapper` the same work as the
source does it, with loops and updates in place, each method proved to make
exactly the transition. The invariant generalises the commented-out
`check_pager_invariants` of `src/sos/mm/pager.c` to pages in flight. The main
theorem is that paging is invisible. Two operations keep the invariant only
under a condition, and the wake-up of a blocked thread can be lost; for each the
exact condition is proved, and `PagingWitnesses` gives a run that violates it:

* deleting a process whose page at STACK_TOP is mapped leaves a stale mapping to
  a free frame, because unmapping stops below STACK_TOP while the access rights
  include it (`src/sos/mm/pager.c:129` and `:458`); the process that gets the
  number next can read another of its pages through it;
* `start_process` unmaps the loader's pages, which clears the emulated reference
  bit of a page that was changed while on its way out, and the process later
  reads the old contents; this can happen exactly while such a page is mapped
  writable or has been changed already;
* a thread whose eviction victim is freed before the last acknowledgement is
  never answered, unless the page is mapped at that moment.

**Frames, bit fields, page table words, queues** (`FrameTable`, `PageTable`,
`TailQueue`): the stack and its shadow bitmap, the two-level table as arrays
that hold the map of the paging model, the tag bits of an entry, and the
pointer-level TAILQ whose prev fields hold addresses of next fields.

**The K&R allocator** (`KrMalloc`, `KrArena`): headers in memory, blocks tiling
the arena, a circular, address-ordered, coalesced free list, both cyclic
searches, growth and the allocator's own checker.

**printf and strtol** (`DigitStrings`, `FormatSpec`, `FormatText`,
`FormatDirectives`, `FormatVisible`, `Format`, `Strtol`): `FormatSpec` gives a
format its unbounded text and `FormatVisible` says independently which characters
each conversion prints; `Format` is the engine that writes to memory; the round
trip relates printer and parser.

**The clock** (`ClockTime`, `Alarms`, `AlarmRequests`, `AlarmClock`): tick
arithmetic, the alarm list over whole runs, what the clients get of what they
asked for, and the driver with its linked list.

**Lifetimes and calls** (`Lifetimes`, `Calls`, `Kernel`, `CircularBuffer`): file
handles with NFS calls in flight, the single console reader, processes waiting
for others, all across process deletion; what each call does and for whom; and
the console's ring buffer.

Inputs from outside (addresses malloc returns for items and handles, arriving
data, elapsed ticks, the success of an allocation, the uninitialised
`awaits_callback` of a standard output handle) are parameters. Where code and comments disagree the model follows the
code: the counter of `allocate_process_entry` is said to advance on every call
but advances only when its entry is free, and `open_serial` is said to admit one
writer where it admits one reader.

## Model

| member | source | states |
|---|---|---|
| `PagingMachine.PagingInvisible` | src/sos/mm/pager.c:319-380 | after any run of faults, evictions, abandoned swap-outs, chunk acknowledgements in any order, and of process starts and deletions that satisfy their exact conditions StartSafe and DeleteSafe, a read through a mapping gives the byte last written there by that process, zero if none |
| `PagingMachine.RunRefines` | src/sos/mm/swapper.c:178-310 | every run whose starts and deletions are safe keeps the whole invariant and refines one flat memory for each process |
| `PagingMachine.StepRefines` | src/sos/mm/swapper.c:395-466 | each single step (fault, user store, server write or read, either callback, start, deletion) keeps the invariant and commutes with the flat memory |
| `PagingMachine.SeenIsFlat` | src/sos/mm/pager.c:370-379 | what the hardware mapping shows is the byte of the flat memory |
| `PagingMachine.FlatIsLastWritten` | src/sos/mm/pager.c:319-380 | the flat memory is exactly 'last byte stored since the page was last freed' |
| `PagingMachine.InitInv` | src/sos/mm/pager.c:229-231 | a freshly booted server satisfies the invariant and shows empty memories |
| `PagingTheorems.Isolation` | src/sos/mm/frames.c:204-235 | in every reachable state a frame is free and named by no entry, or held by exactly one resident entry; resident entries name managed frames only; each mapping shows the frame of its own entry, which is not free; no two pages share a frame |
| `PagingTheorems.QueuesAgree` | src/sos/mm/pager.c:699-770 | in every reachable state a page outside the IPC page is resident exactly if one live item in exactly one queue is about it; a clean active page has a slot with its frame's bytes; a page mapped writable is dirty |
| `PagingTheorems.WritesStayHome` | src/sos/mm/swapper.c:419-431 | a write in flight goes to a slot that its own item alone owns, also after the page was deleted |
| `PagingTheorems.PutAckOutcome` | src/sos/mm/swapper.c:191-232 | to_swap is 512 times the outstanding acknowledgements; the frame is freed exactly on the last one, if the page is unmapped and not deleted; a touched page returns to the active queue with frame and entry intact |
| `PagingTheorems.AckCount` | src/sos/mm/swapper.c:191-194 | an acknowledgement finds to_swap at 512 exactly if its chunk is the only one outstanding |
| `PagingLate.LateCallback` | src/sos/process.c:366-413 | a transfer in flight when its process is deleted, whatever happens then, the same thread id and address coming into use again included: while it is in flight its callbacks change no frame, entry, mapping, slot or active page |
| `PagingLate.LateAfterStart` | src/sos/mm/pager.c:640-648 | the same for a heap page freed by start_process |
| `PagingLate.KillMarks` | src/sos/mm/pager.c:577-585 | deletion marks every item of the process that it does not free |
| `PagingLate.StartMarks` | src/sos/mm/pager.c:640-648 | start_process marks every item of a heap page that it does not free |
| `PagingLate.MarkStays` | src/sos/mm/swapper.c:198-277 | over any continuation the mark and the page of an item stay for as long as requests for it are in flight |
| `PagingTheorems.MarkedCallback` | src/sos/mm/swapper.c:198-277 | step towards LateCallback: a callback for a marked item touches nothing, and never fails |
| `PagingTheorems.FaultStops` | src/sos/mm/pager.c:265-300 | a fault ends in the kernel debugger exactly if it needs a frame, none is free, and there is no victim or no slot for it |
| `PagingTheorems.NeverStops` | src/sos/mm/swapper.c:178-310 | no callback, user access or process step reaches a failed assertion or a missing entry |
| `PagingTheorems.StartSafeIfUntouched` | src/sos/process.c:317-322 | start_process is safe if no page of the loader was mapped again while on its way out |
| `PagingAnswer.FaultAnswers` | src/sos/mm/pager.c:319-380 | a fault makes the thread wait exactly if the page is not in a frame and is swapped, or none is free and the victim is dirty; otherwise the page is afterwards mapped to the frame of its entry with exactly the right asked for, dirty if it may be written, so the access that faulted can be made |
| `PagingAnswer.FaultServed` | src/sos/mm/pager.c:319-380 | every fault that does not stop the server is served: while the NFS server answers, the victim goes out, the page comes in and the access can be made |
| `PagingAnswer.FaultLeaves` | src/sos/mm/pager.c:319-380 | a fault leaves the entry and mapping of every other page alone unless it evicts, and then maps none anew and changes no entry but that of a clean victim |
| `PagingAnswer.CallbackLeaves` | src/sos/mm/swapper.c:189-310 | stores, the NFS server and the callbacks map and unmap nothing; the only entry they change is that of a page gone out, which becomes swapped to its slot |
| `PagingAnswer.VictimIs` | src/sos/mm/swapper.c:395-416 | swap_out takes the page the search selects |
| `PagingRelease.DeleteReleases` | src/sos/mm/pager.c:532-587 | deletion takes exactly the process's entries, frames, slots and idle items, marks its items in flight, and leaves pages, mappings and items of all others alone |
| `PagingRelease.StartReleases` | src/sos/process.c:317-322 | start_process takes exactly the loader's heap and its mappings below STACK_TOP |
| `PagingRelease.RangeSlots` | src/sos/mm/pager.c:535-575 | a slot is given back exactly if it is that of a swapped page or of an active item of the range |
| `PagingRelease.RangeFrames` | src/sos/mm/pager.c:535-561 | a frame is given back exactly if a page of the range is in it |
| `PagingLedger.SlotsAccounted` | src/sos/mm/swapper.c:194-232 | over every run a slot is in use without an owner exactly if a last callback for a page deleted in flight lost it |
| `PagingLedger.StepLost` | src/sos/mm/swapper.c:194-310 | one step loses a slot exactly if it is such a callback |
| `PagingLedger.QueueOrder` | src/sos/mm/swapper.c:131-151 | the queue keeps its order in every step, at most one item enters and it enters last; an eviction rotates the queue as the search does and takes its head |
| `PagingDelete.DeleteExact` | src/sos/process.c:372-375 | deletion keeps the invariant exactly if the page at STACK_TOP is not mapped; otherwise its mapping survives and shows a free frame |
| `PagingKill.DeleteReadsExact` | src/sos/process.c:372-375 | deletion is safe, by the condition DeleteSafe, exactly if every read in every continuation gives the byte last written; otherwise a process that gets the number again reads its own store to another page through the old mapping |
| `PagingKill.DeleteReadsReachable` | src/sos/process.c:372-375 | the same for every reachable state and the memory its run has written |
| `PagingKill.StackTopLast` | src/sos/mm/pager.c:535-561 | pages are freed in address order, so the frame the old mapping shows is the next to be handed out |
| `PagingDelete.DeleteShows` | src/sos/mm/pager.c:532-587 | deletion clears the deleted process's memory and no other's |
| `PagingStart.StartReadsExact` | src/sos/process.c:317-322 | start_process is safe, by the condition StartSafe, exactly if every read in every continuation gives the byte last written |
| `PagingStart.StartReadsReachable` | src/sos/process.c:317-322 | the same for every reachable state and the memory its run has written |
| `PagingStart.StaleRead` | src/sos/process.c:317-322 | a page of the loader on its way out is, after start_process, read back with exactly the bytes of the requests in flight, whatever its frame holds |
| `PagingStart.GuardExact` | src/sos/mm/pager.c:457-465 | start_process is safe whatever may yet be stored through the mappings exactly if it is safe now and no page of the loader on its way out is mapped writable |
| `PagingStart.RunExecuted` | src/sos/mm/swapper.c:419-431 | in every reachable state a write carried out and not acknowledged has left its data in its slot |
| `PagingDelete.StartExact` | src/sos/process.c:317-322 | step towards StartReadsExact: start_process keeps the inductive invariant exactly if StartSafe holds: what was sent of each page of the loader on its way out is what its frame holds |
| `PagingDelete.StartShows` | src/sos/mm/pager.c:590-649 | start_process clears the loader's heap and nothing else |
| `PagingDelete.FreeRangeInv` | src/sos/mm/pager.c:590-649 | freeing a range of unmapped pages keeps queues, tables, frames, slots, flights and waiters consistent |
| `PagingDelete.FreeFramesOk` | src/sos/mm/pager.c:535-561 | freeing frame by frame in address order keeps stack and entries a partition of the frames |
| `PagingDelete.SwapFreeAsserts` | src/sos/mm/swapper.c:337-345 | every slot released with a range is in use, so the assertion of swap_free holds |
| `PagingWaiting.ReplyExact` | src/sos/mm/swapper.c:202-224 | a blocked thread is answered exactly when it is killed or the last chunk of the one item it awaits arrives, unless that step strands it |
| `PagingWaiting.OrphanExact` | src/sos/mm/swapper.c:194-232 | a thread loses its waker exactly if the last acknowledgement of the swap-out it started arrives after the page was freed and while it is unmapped |
| `PagingWaiting.BlockedAreAwaited` | src/sos/mm/pager.c:429-441 | in runs where no step strands a thread, every blocked thread awaits exactly one item in flight |
| `PagingWaiting.StrandedForever` | src/sos/mm/swapper.c:194-232 | a stranded thread stays blocked until it is killed |
| `PagingWitnesses.StaleStackTop` | src/sos/mm/pager.c:457-481 | a run of two steps after which deleting the process leaves a mapping to a free frame |
| `PagingWitnesses.LostUpdate` | src/sos/process.c:317-322 | a run in which a process reads 0 where it last wrote 1: its page is changed while on its way out, start_process unmaps it, the old contents go out and come back |
| `PagingWitnesses.StrandedRun` | src/sos/mm/swapper.c:194-232 | a run that leaves a thread blocked with nothing left to wake it |
| `PagingEvict.HeadUnreferenced` | src/sos/mm/swapper.c:131-152 | after the search the head is unreferenced, as swap_out asserts |
| `PagingEvict.RotateExact` | src/sos/mm/swapper.c:131-152 | the victim is the first unreferenced page, or the head if all are referenced; exactly the pages in front of the first unreferenced one are unmapped; the queue is the rotation headed by the victim |
| `PagingEvict.RotateInv` | src/sos/mm/swapper.c:131-152 | rotation and unmapping by the search keep the invariant; no page on its way out loses its mapping |
| `PagingEvict.GiveSlotInv` | src/sos/mm/swapper.c:402-403 | giving the victim a free slot keeps the invariant |
| `PagingEvict.WriteOutInv` | src/sos/mm/swapper.c:408-434 | issuing the eight writes and blocking the initiator keeps the invariant |
| `PagingRetire.EvictInv` | src/sos/mm/swapper.c:436-443 | dropping a clean victim keeps the invariant |
| `PagingRetire.EvictShows` | src/sos/mm/swapper.c:436-443 | dropping a clean victim loses nothing: the slot holds the frame's bytes |
| `PagingFault.FaultInv` | src/sos/mm/pager.c:319-380 | a page fault that does not stop the server keeps the invariant and changes no process's memory |
| `PagingFault.VictimInv` | src/sos/mm/swapper.c:395-404 | the chosen victim is unmapped, resident and has a slot, with the invariant kept |
| `PagingFault.SwapInInv` | src/sos/mm/pager.c:355-366 | giving a swapped page a frame and requesting its first chunk keeps the invariant |
| `PagingPut.PutAckInv` | src/sos/mm/swapper.c:178-240 | a write acknowledgement always finds its item and entry, keeps the invariant and changes no process's memory |
| `PagingPut.AckPuts` | src/sos/mm/swapper.c:191-191 | one acknowledgement takes one chunk out of the outstanding ones and 512 off to_swap |
| `PagingPut.DrainedSaved` | src/sos/mm/swapper.c:194-210 | when all chunks of an untouched page are acknowledged the slot holds exactly the frame's bytes |
| `PagingPut.AbandonInv` | src/sos/mm/swapper.c:213-229 | a page touched meanwhile goes back to the active queue and the invariant holds |
| `PagingPut.RetireInv` | src/sos/mm/swapper.c:194-210 | giving up the frame of a completed swap-out keeps the invariant |
| `PagingGet.GetAckInv` | src/sos/mm/swapper.c:267-310 | a read reply always finds its item, keeps the invariant and changes no process's memory |
| `PagingGet.ServePutInv` | src/sos/mm/swapper.c:419-431 | the NFS server may carry out a pending write at any time and repeatedly |
| `PagingGet.ServeGetInv` | src/sos/mm/swapper.c:291-297 | the NFS server may answer a pending read at any time |
| `PagingGet.StoreShows` | src/sos/mm/pager.c:343-370 | a user store changes exactly one byte of one process's memory |
| `Swapper.Server.SecondChanceSelect` | src/sos/mm/swapper.c:131-152 | terminates; returns the oldest unreferenced page, or the original head if all are referenced; the rest is the rotation behind it and every skipped page is unmapped |
| `Swapper.Server.AllocateSwapEntry` | src/sos/mm/swapper.c:319-329 | marks and returns the lowest free slot, or none exactly if all are used |
| `Swapper.Server.WriteChunks` | src/sos/mm/swapper.c:419-431 | the loop issues exactly the eight requests, each with its own chunk of the page |
| `Swapper.Server.PickVictim` | src/sos/mm/swapper.c:396-403 | victim and slot as specified; a failure status exactly if there is no victim or no slot |
| `Swapper.Server.SwapOut` | src/sos/mm/swapper.c:395-446 | performs exactly the specified eviction and returns pending, complete or a failure accordingly |
| `Swapper.Server.AllocateNewFrame` | src/sos/mm/pager.c:265-300 | a frame, no frame while a swap-out is pending, or a stop, as specified |
| `Swapper.Server.VirtualMapping` | src/sos/mm/pager.c:319-380 | performs exactly the specified fault and tells a mapping from a thread left blocked |
| `Swapper.Server.EnterPage` | src/sos/mm/pager.c:334-353 | a first reference enters a zeroed frame and, outside the IPC page, a dirty queue item |
| `Swapper.Server.SwapIn` | src/sos/mm/swapper.c:455-466 | a swapped page gets a clean entry, an item and its first read request |
| `Swapper.Server.EnterMapping` | src/sos/mm/pager.c:368-379 | maps the page's own frame with the requested right and marks it dirty on write |
| `Swapper.Server.SwapWriteCallback` | src/sos/mm/swapper.c:178-240 | performs exactly the specified acknowledgement |
| `Swapper.Server.FinishSwapOut` | src/sos/mm/swapper.c:194-232 | the four outcomes of the last acknowledgement |
| `Swapper.Server.SwapReadCallback` | src/sos/mm/swapper.c:267-310 | performs exactly the specified read reply, dropping the item of a deleted page |
| `Swapper.Server.PagerUnmapRange` | src/sos/mm/pager.c:469-500 | the walk over both levels removes exactly the mappings of resident pages in the range |
| `Swapper.Server.SwapFree` | src/sos/mm/swapper.c:337-345 | requires the bit to be set, as the source asserts, and clears it |
| `Swapper.Server.FreeEntries` | src/sos/mm/pager.c:592-619 | the walk clears the range, pushes each resident frame once and releases each swapped slot |
| `Swapper.Server.FreeActive` | src/sos/mm/pager.c:621-638 | the second loop removes exactly the active items of the range and releases their slots |
| `Swapper.Server.CancelFlights` | src/sos/mm/pager.c:640-648 | the third loop marks pages in flight deleted and clears the initiator where the thread is the one |
| `Swapper.Server.PagerFreeRange` | src/sos/mm/pager.c:590-649 | all three loops together free the range as specified |
| `Swapper.Server.DeleteProcess` | src/sos/process.c:372-375 | the memory part of delete_process performs the specified deletion |
| `Swapper.Server.StartProcess` | src/sos/process.c:320-322 | the memory part of start_process performs the specified start; unmapping the heap a second time finds nothing |
| `FrameTable.Table.constructor` | src/sos/mm/frames.c:149-188 | the stack holds every frame of the range once, the lowest on top, and every bit is 0 |
| `FrameTable.Table.Alloc` | src/sos/mm/frames.c:204-216 | 0 if no frame is free, else the top of the stack, never a frame that is live; stack and bitmap keep agreeing |
| `FrameTable.Table.Free` | src/sos/mm/frames.c:225-235 | pushes the frame; a repeated free changes nothing |
| `FrameTable.FramesBounded` | src/sos/mm/frames.c:52-54 | distinct frames never overflow the stack array |
| `FrameTable.BitMeans` | src/sos/mm/frames.c:112-123 | a frame's bit is 1 exactly if it is not on the stack |
| `FrameTable.PopAgrees` | src/sos/mm/frames.c:204-210 | popping a frame and setting its bit keeps stack and bitmap in agreement |
| `FrameTable.PushAgrees` | src/sos/mm/frames.c:228-231 | pushing a frame and clearing its bit keeps stack and bitmap in agreement |
| `Bitfield.Set` | src/sos/datastructures/bitfield.c:13-28 | one bit gets the value, no other bit changes |
| `Bitfield.MaskBits` | src/sos/datastructures/bitfield.c:15-26 | setting or clearing one bit leaves the others |
| `PageTable.DirtyWord` | src/sos/mm/pager.c:199-205 | marking dirty keeps the frame, which is recovered by clearing the low bits |
| `PageTable.SwappedWord` | src/sos/mm/swapper.c:162-167 | every aligned swap location, 0 included, reads back as a swapped entry and not as an untouched one |
| `PageTable.FrameWord` | src/sos/mm/pager.c:341-343 | a frame address as allocated is a clean resident entry |
| `PageTable.IndicesOfPage` | src/sos/mm/pager.c:79-81 | the two indices determine the page and its base address |
| `PageTable.PageOfIndices` | src/sos/mm/pager.c:79-81 | every pair of indices is that of the address made from it |
| `PageTable.Directory.Lookup` | src/sos/mm/pager.c:675-681 | reads the word of the address's page, zero where no second-level table exists |
| `PageTable.Directory.Store` | src/sos/mm/pager.c:325-331 | creates the second-level table if missing and changes exactly one page's word |
| `TailQueue.Queue.constructor` | src/sos/queue.h:499-503 | an empty queue |
| `TailQueue.Queue.InsertTail` | src/sos/queue.h:543-551 | refines append; links and tail address stay consistent |
| `TailQueue.Queue.Remove` | src/sos/queue.h:561-575 | refines deletion at any position; links and tail address stay consistent |
| `KrArena.Arena.Malloc` | src/libs/c/src/malloc.c:42-97 | a result is a new live block of the size asked for, disjoint from every live block, and the live blocks grow by exactly it; NULL exactly if no free block fits and the arena may not grow, and then nothing changes |
| `KrArena.Arena.FirstFit` | src/libs/c/src/malloc.c:54-95 | the cyclic search terminates, before and after growing |
| `KrArena.Arena.Take` | src/libs/c/src/malloc.c:55-63 | an exact fit leaves the ring, a larger block gives its tail; nothing else changes hands |
| `KrArena.Arena.Free` | src/libs/c/src/malloc.c:102-144 | NULL does nothing; a live block stops being live and no other does; the heap invariant is kept |
| `KrArena.Arena.Search` | src/libs/c/src/malloc.c:112-114 | the cyclic search terminates at the member after which the block belongs, for any start |
| `KrArena.Arena.Join` | src/libs/c/src/malloc.c:120-134 | the header updates are the two conditional joins |
| `KrArena.Arena.MoreCore` | src/libs/c/src/sys-l4_rootserver/sys_morecore.c:115-132 | refuses exactly at the limit and then changes nothing, else a free block of at least the units asked for exists and no live block changed |
| `KrArena.Arena.Check` | src/libs/c/src/malloc.c:148-175 | the source's checker accepts a correct heap exactly if its static list head lies above the arena or nothing is free |
| `KrArena.NunitsExact` | src/libs/c/src/malloc.c:47-47 | the block holds the bytes asked for exactly if the request is at most 2^32 - 8 |
| `KrArena.GrantExact` | src/libs/c/src/sys-l4_rootserver/sys_morecore.c:122-129 | morecore refuses, or stays below the limit and adds enough, exactly if neither the rounding nor the new end wraps |
| `KrArena.HugeRequests` | src/libs/c/src/malloc.c:47-47 | the largest request gets a header without payload; the largest that does not wrap there makes morecore grant nothing |
| `KrMalloc.FreeHeap` | src/libs/c/src/malloc.c:112-134 | free keeps blocks tiling the arena, headers, the ordered circular list, and their agreement |
| `KrMalloc.LinkRing` | src/libs/c/src/malloc.c:120-132 | the four combinations of joins keep the list circular, address ordered and coalesced |
| `KrMalloc.Conservation` | src/libs/c/src/malloc.c:42-144 | free plus allocated units are the whole arena |
| `KrMalloc.BlocksDisjoint` | src/libs/c/src/malloc.c:42-144 | different blocks do not overlap |
| `KrMalloc.FullyCoalesced` | src/libs/c/src/malloc.c:120-132 | no two neighbouring blocks are both free |
| `KrArena.WholeHeap` | src/libs/c/src/malloc.c:56-57 | taking an exact fit keeps the heap and makes exactly that block live |
| `KrArena.TailHeap` | src/libs/c/src/malloc.c:58-62 | taking the tail keeps the heap and makes exactly the tail live |
| `KrArena.GrowHeap` | src/libs/c/src/sys-l4_rootserver/sys_morecore.c:128-130 | an appended block keeps the heap |
| `Format.Vsnprintf` | src/libs/c/src/vsnprintf.c:83-90 | stores the NUL-terminated prefix of length min(size - 1, r) of the unbounded output, nothing outside it, and returns the full length r; size 0 stores nothing and returns 0 |
| `Format.FormatString` | src/libs/c/src/format.c:209-542 | the interleaved loops produce the text the format stands for |
| `Format.Sink.WriteChar` | src/libs/c/src/format.c:139-150 | appends to the unbounded text while the buffer keeps its bounded prefix |
| `Format.Sink.Fprintf1` | src/libs/c/src/format.c:160-201 | prints exactly the field and returns its length |
| `Format.ReadSpec` | src/libs/c/src/format.c:242-319 | reads exactly the modifiers up to the conversion character |
| `Format.ReadModifier` | src/libs/c/src/format.c:244-319 | one modifier has the specified effect, star arguments included |
| `Format.Prepare` | src/libs/c/src/format.c:343-511 | each conversion yields the specified field, with base and value carried over as the source does |
| `Format.PrepareNumber` | src/libs/c/src/format.c:496-511 | digits, minimum digits, zero padding and the alternate octal digit |
| `Format.ScanLength` | src/libs/c/src/format.c:432-448 | %s prints at most the precision, when one is given |
| `FormatVisible.DirectivePrints` | src/libs/c/src/format.c:226-530 | a conversion with any flags, width, precision and length modifier prints exactly the characters of a reference definition: sign or 0x prefix, zeros, digits or text, padded left or right; and uses up one argument |
| `FormatVisible.DirectiveAhead` | src/libs/c/src/format.c:226-530 | in front of another format it prints those characters, and the rest gets the other arguments |
| `FormatText.InARow` | src/libs/c/src/format.c:226-530 | two formats in a row print the texts of both, the second with the arguments the first has not used |
| `FormatText.PlainPrints` | src/libs/c/src/format.c:226-231 | a format without a percent sign prints itself |
| `FormatText.PlainAhead` | src/libs/c/src/format.c:226-231 | text in front of a format is kept |
| `FormatText.PercentPrints` | src/libs/c/src/format.c:244-246 | two percent signs print one |
| `FormatDirectives.Scanned` | src/libs/c/src/format.c:232-319 | reading a specification sets exactly the flags, width, precision and length it spells |
| `FormatVisible.FieldPadded` | src/libs/c/src/format.c:162-208 | the field is laid out as sign and body with blanks behind for a minus flag, zeros between for a zero flag, else blanks in front |
| `FormatVisible.FieldEnds` | src/libs/c/src/format.c:162-208 | a left-justified field begins with sign and text, any other ends with its text; its length is the larger of width and need |
| `FormatVisible.HexCase` | src/libs/c/src/format.c:452-457 | %x prints lower-case digits, %X upper-case ones |
| `FormatSpec.TextWidth` | src/libs/c/src/format.c:160-201 | a field is as wide as its width, or as wide as it needs |
| `FormatSpec.TextJustified` | src/libs/c/src/format.c:172-194 | a positive width pads on the left, so the field ends with its text; a negative one pads on the right; without padding the field is prefix, zeros and text |
| `FormatSpec.PlainString` | src/libs/c/src/format.c:432-448 | %s alone prints its argument |
| `FormatSpec.PlainPointer` | src/libs/c/src/format.c:419-431 | %p prints (nil), or 0x and eight hexadecimal digits |
| `FormatSpec.ConvertProper` | src/libs/c/src/format.c:502-511 | no conversion gives fprintf1 a negative padding count |
| `FormatSpec.ModifiersOk` | src/libs/c/src/format.c:256-261 | after any modifiers the prefix is empty, a plus or a blank, and its length fits it |
| `DigitStrings.Umaxtostr` | src/libs/c/src/format.c:101-124 | both phases together write exactly the digits of the value and never reach below index 2 of the 24 byte buffer |
| `DigitStrings.DigitsFit` | src/libs/c/src/format.c:219-219 | a 64-bit value has at most 22 digits in base 8 and above |
| `DigitStrings.DigitsDenote` | src/libs/c/src/format.c:119-122 | the digits denote the value |
| `DigitStrings.NoLeadingZero` | src/libs/c/src/format.c:119-122 | the digits have no leading zero |
| `DigitStrings.TableValue` | src/libs/c/src/strtol.c:97-111 | char_value inverts both digit tables |
| `Strtol.ParseLong` | src/libs/c/src/strtol.c:114-216 | value and end position are those of the specification, failures included |
| `Strtol.SkipLeading` | src/libs/c/src/strtol.c:128-133 | leading white space is skipped |
| `Strtol.ReadPrefix` | src/libs/c/src/strtol.c:149-175 | base and prefix handling for bases 16 and 0 |
| `Strtol.ParseDigits` | src/libs/c/src/strtol.c:177-201 | digits are summed up in 32-bit arithmetic, then the sign applied |
| `Strtol.ParseEnd` | src/libs/c/src/strtol.c:189-195 | after a success the end position stands behind a digit and not before another one |
| `Strtol.PrintParse` | src/libs/c/src/format.c:356-394 | a format that is one %d or %i with any flags, width and precision prints a field that strtol in base 10 reads back as the value, for magnitudes up to LONG_MAX |
| `Strtol.SignedRoundTrip` | src/libs/c/src/format.c:381-394 | the same for every set of conversion variables |
| `Strtol.UnsignedRoundTrip` | src/libs/c/src/format.c:449-492 | %o, %u, %x and %X, alternate forms included, are read back in their own base up to LONG_MAX |
| `Strtol.ParseLayout` | src/libs/c/src/strtol.c:115-218 | white space of all six kinds, a sign, a prefix as the base allows and digits are read as the number they denote, and the end is the first character that is no digit |
| `Strtol.AccumulateDigits` | src/libs/c/src/strtol.c:189-192 | digits whose number fits are summed up without wrapping and parsing stops behind them |
| `Alarms.Alarmed` | src/libs/clock/src/clock.c:192-280 | over every run from the start the list is sorted and stable, each registered alarm is pending or fired once, none fires more than 500 us early, every alarm known at the handler's last reading and due then has fired exactly once, firings are in expiry order among the alarms known, and the countdown, but for the delay in setting it, ends no later than the first expiry |
| `Alarms.InterruptFires` | src/libs/clock/src/clock.c:192-214 | after an interrupt every registered alarm that was due when it arrived has fired exactly once and is not pending |
| `Alarms.ServeFires` | src/libs/clock/src/clock.c:197-214 | the handler leaves nothing pending that is due at its last reading, which comes no earlier than the interrupt |
| `Alarms.RunKeeps` | src/libs/clock/src/clock.c:192-280 | the same from any state that satisfies it, for calls of the handler while an alarm is pending |
| `Alarms.AssertionHolds` | src/libs/clock/src/clock.c:194-194 | if the handler is called only after the countdown has ended, an alarm is pending at every call, as it asserts, and the countdown runs exactly while alarms are pending |
| `AlarmRequests.RunLogs` | src/libs/clock/src/clock.c:253-280 | over every run the log grows by exactly one alarm for each registration, in order, with its own owner and its own reading plus delay |
| `AlarmRequests.RegisterLogs` | src/libs/clock/src/clock.c:262-266 | a registration in range adds one alarm, for its caller, at its reading plus the delay asked for |
| `AlarmRequests.FiresAsAsked` | src/libs/clock/src/clock.c:197-204 | whatever fires was asked for: by its owner, and not before its reading plus its delay less 500 us, at a time the clock has shown |
| `AlarmRequests.RequestOnce` | src/libs/clock/src/clock.c:197-204 | each request is pending once, or has fired once, with its own owner and time |
| `AlarmRequests.RequestServed` | src/libs/clock/src/clock.c:192-214 | after an interrupt every request whose delay had passed when it arrived has been served once |
| `Alarms.FiresOnce` | src/libs/clock/src/clock.c:197-204 | each registered alarm is pending once and not fired, or fired once and not pending |
| `Alarms.InsertSorted` | src/libs/clock/src/clock.c:75-90 | insertion keeps expiry order, and registration order among equal expiries |
| `Alarms.InsertMembers` | src/libs/clock/src/clock.c:75-90 | insertion adds exactly the new alarm |
| `Alarms.CountdownPunctual` | src/libs/clock/src/clock.c:58-58 | the truncated countdown never exceeds the delay's ticks and ends no later than the expiry by the time stamp |
| `Alarms.CountdownClose` | src/libs/clock/src/clock.c:58-58 | within the register's range the countdown is short by less than four ticks |
| `Alarms.CountdownReaches` | src/libs/clock/src/clock.c:58-58 | such a countdown, however late it is set, ends at most a microsecond before the delay has passed by the time stamp, also across an overflow |
| `Alarms.RunReaches` | src/libs/clock/src/clock.c:192-280 | over every run a countdown whose delay fits the register ends at most a microsecond before the first alarm expires |
| `Alarms.HeadFires` | src/libs/clock/src/clock.c:192-214 | the interrupt at the end of such a countdown finds the list not empty and fires its first alarm, exactly once; but for the delay in setting it, the countdown does not end later than that alarm expires |
| `Alarms.DueExact` | src/libs/clock/src/clock.c:198-200 | the signed test fires nothing more than 500 us early exactly if the expiry is less than 2^63 us away |
| `Alarms.ServeKeeps` | src/libs/clock/src/clock.c:197-214 | one interrupt keeps the invariant and arms the countdown in time |
| `Alarms.RegisterKeeps` | src/libs/clock/src/clock.c:253-280 | a registration keeps the invariant and arms the countdown in time |
| `Alarms.IdleExact` | src/libs/clock/src/clock.c:193-214 | a call leaves a countdown running with nothing pending exactly if it comes before the countdown has ended and every pending alarm is due at its reading |
| `Alarms.IdleRun` | src/libs/clock/src/clock.c:193-214 | a run with such a call: the first countdown ends while register_timer is about to set the second, its interrupt empties the list, and the interrupt at the end of the second fails the assertion |
| `ClockTime.Monotone` | src/libs/clock/src/clock.c:330-336 | the time stamp never decreases |
| `ClockTime.NeverAhead` | src/libs/clock/include/nslu2.h:140-141 | the time stamp never runs ahead of the ticks |
| `ClockTime.BoundedLag` | src/libs/clock/src/clock.c:170-177 | after k overflows it lags by at most k * 1784 / 3333 + 1 us |
| `ClockTime.StampAdvance` | src/libs/clock/include/nslu2.h:140-141 | ticks that fit d us advance the time stamp by at most d, also across an overflow |
| `AlarmClock.Driver.TimerQueueInsert` | src/libs/clock/src/clock.c:75-90 | the pointer walk refines insertion into the sorted list |
| `AlarmClock.Driver.TimerQueuePop` | src/libs/clock/src/clock.c:99-109 | removes and returns the head, NULL exactly on an empty list |
| `AlarmClock.Driver.GetTimeStamp` | src/libs/clock/src/clock.c:330-336 | high and low part make up the time stamp; before initialisation the error code |
| `AlarmClock.Driver.TimerOverflowIrq` | src/libs/clock/src/clock.c:170-177 | takes the high part of k overflows to that of k + 1, so that readings stay those of the time stamp |
| `AlarmClock.Driver.Elapse` | src/libs/clock/src/clock.c:170-177 | however many overflows occur meanwhile, handling each keeps readings equal to the time stamp of the tick |
| `AlarmClock.Driver.RegisterTimer` | src/libs/clock/src/clock.c:253-280 | performs the specified registration, the timer being set some ticks after the reading, exactly if the new alarm is the head; the two error returns change nothing |
| `AlarmClock.Driver.Timer0Irq` | src/libs/clock/src/clock.c:192-214 | performs the specified service with a new time reading for each alarm and the timer set some ticks after the last |
| `Lifetimes.RunKeeps` | src/sos/process.c:358-461 | over every run of opens, reads, writes, closes, callbacks, console input, waits, creations and deletions the invariant holds |
| `Lifetimes.StepKeeps` | src/sos/process.c:358-424 | every single step keeps it |
| `Lifetimes.FreesSafe` | src/sos/io/io_nfs.c:136-145 | every handle a step passes to free is allocated and passed once; afterwards no reply for it is outstanding and no running process's table holds it; nothing else ceases to be allocated |
| `Lifetimes.CallbackExact` | src/sos/io/io_nfs.c:136-217 | a reply goes to a running process blocked in exactly that call, or frees the handle and answers nobody |
| `Lifetimes.OneReader` | src/sos/io/io_serial.c:101-130 | all console handles open for reading belong to one process, and a reader is recorded exactly if there is one |
| `Lifetimes.OpenCloseConsole` | src/sos/io/io_serial.c:101-130 | opening the console and closing that handle again restores the whole state, the recorded reader included |
| `Lifetimes.ReceiveAnswers` | src/sos/io/io_serial.c:78-91 | a complete line answers exactly the recorded reader, if it has a read under way |
| `Lifetimes.InputExpected` | src/sos/io/io_serial.c:39-49 | console input is handed to the recorded reader, which is blocked on that handle |
| `Lifetimes.WakeExact` | src/sos/process.c:87-101 | deletion wakes exactly those waiting for that process or for any; nobody is left waiting for one that is not running |
| `Lifetimes.WaitsUntilExit` | src/sos/process.c:437-461 | a process that waits is released by the end of the one it waits for, or of any if it waits for any, and by no other step |
| `Lifetimes.AllocateExact` | src/sos/process.c:114-133 | an entry is found exactly if one is free, never a running process's and never the server's |
| `Calls.WriteExact` | src/sos/io/io.c:299-320 | a write is issued and blocks its process exactly if the descriptor is an NFS file open for writing; otherwise nothing changes |
| `Calls.ReadExact` | src/sos/io/io.c:269-287 | a read is issued, answered at once or left waiting for input exactly as file, mode and available input say; without the right to read nothing changes |
| `Calls.OpenNfsExact` | src/sos/io/io_nfs.c:108-129 | an NFS file opens in the lowest free entry, with exactly the rights asked for, exactly if an entry is free and the file permits each of them |
| `Calls.OpenConsoleExact` | src/sos/io/io_serial.c:101-130 | the console opens exactly if an entry is free and, for reading, nobody else reads it |
| `Calls.CloseExact` | src/sos/io/io.c:329-352 | close removes the entry and its handle, and the console loses its reader exactly with its last reading handle |
| `Calls.ReceiveExact` | src/sos/io/io_serial.c:78-91 | a complete line ends the first read under way of the recorded reader; other input changes nothing here |
| `Calls.WaitExact` | src/sos/process.c:437-461 | a process waits for exactly the target it named, exactly if that is any process or one that runs; otherwise it is answered at once |
| `Calls.WaitLasts` | src/sos/process.c:437-461 | a wait lasts over every run in which neither the waiting process nor one it waits for ends |
| `Calls.WaitForChild` | src/sos/process.c:437-461 | a process that waits for a running child is still waiting after every such run and goes on when the child ends |
| `Calls.CreateExact` | src/sos/process.c:195-225 | a process is created exactly if an entry is free; it runs with the console for writing as its only file |
| `Calls.NumbersDiffer` | src/sos/process.c:114-120 | while the counter's entry is free, processes created in a row get different numbers |
| `Calls.KillExact` | src/sos/process.c:376-413 | deletion frees each handle of the process except those awaiting a callback, which are marked, and gives up the console |
| `Calls.OthersUndisturbed` | src/sos/process.c:358-461 | no call, callback, input, creation or deletion touches table, handles or waiting of a process it does not concern |
| `Calls.OpenedAs` | src/sos/io/io.c:145-161 | over every run a handle has exactly the file, owner and rights of the open that made it |
| `Calls.CallsAllowed` | src/sos/io/io.c:88-98 | over every run an NFS call is only issued by the process that opened the handle, with the right to read or to write that it asked for and the file permits |
| `Kernel.Server.FindFreeFileSlot` | src/sos/io/io.c:130-138 | the lowest free slot, or -1 exactly if there is none |
| `Kernel.Server.OpenConsole` | src/sos/io/io_serial.c:101-130 | opens; a reader is refused while another process is the reader |
| `Kernel.Server.OpenNfsFile` | src/sos/io/io_nfs.c:108-129 | opens if a slot is free and the mode is permitted |
| `Kernel.Server.Read` | src/sos/io/io.c:269-287 | issues the NFS call and blocks the caller, or serves or blocks a console read |
| `Kernel.Server.Write` | src/sos/io/io.c:299-317 | issues the NFS call and blocks the caller; console writes are immediate |
| `Kernel.Server.IsLastReader` | src/sos/io/io_serial.c:189-209 | true exactly if no other handle of the process reads the console |
| `Kernel.Server.Close` | src/sos/io/io.c:329-350 | frees the handle, which is never outstanding, and gives up the console with the last reader |
| `Kernel.Server.NfsCallback` | src/sos/io/io_nfs.c:136-217 | frees an abandoned handle, otherwise answers |
| `Kernel.Server.GetReadingFileHandle` | src/sos/io/io_serial.c:39-49 | the first handle with a console read under way |
| `Kernel.Server.SerialReceive` | src/sos/io/io_serial.c:78-91 | answers the blocked reader at a newline or a full buffer |
| `Kernel.Server.WaitProcess` | src/sos/process.c:437-461 | answers at once for a process that is not running, otherwise records whom to wait for |
| `Kernel.Server.AllocateProcessEntry` | src/sos/process.c:114-133 | the entry at the counter, or the lowest free one, and the counter's reset |
| `Kernel.Server.RegisterProcess` | src/sos/process.c:195-230 | a fresh entry: no wait, an emptied file table, a console handle for output |
| `Kernel.Server.WaitWakeup` | src/sos/process.c:87-101 | the loop answers exactly the processes that wait for this one or for any |
| `Kernel.Server.ReleaseSlot` | src/sos/process.c:379-394 | a handle awaiting a reply is left to its callback, any other is freed |
| `Kernel.Server.DeleteProcess` | src/sos/process.c:358-424 | all loops together perform the specified deletion |
| `CircularBuffer.Ring.Write` | src/sos/datastructures/circular_buffer.c:34-54 | appends, or drops the character exactly if size - 1 characters are stored |
| `CircularBuffer.Ring.Read` | src/sos/datastructures/circular_buffer.c:10-31 | hands out and removes the oldest min(asked, stored) characters, in order |

## Left out

- Accesses below VIRTUAL_START that map memory one to one, and the access-rights function: a faulting address is one the rights admit.
- NFS error statuses, a full swap file and too few frames: they end in an assertion or the kernel debugger, and are modelled as the step that stops the server.
- Acknowledgements that arrive twice: a write may be carried out repeatedly, but its callback runs once.
- The SOS_UNMAP_ALL system call as a user step: it exists for testing and clears reference bits during a swap-out.
- The process size counter. Slots of pages deleted in flight are never released by the source: PagingLedger.SlotsAccounted says which, none other is lost.
- The initiator field of an item created for a swap-in, which the source leaves uninitialised: the model takes it to name nobody.
- The SWAP_TEST build, which shortens the frame stack without marking the frames left out.
- The queues of the paging model are sequences; that TAILQ implements them is proved separately in TailQueue.
- FrameTable.Table.constructor: requires page-aligned bounds and a first frame that is not frame 0, because the source's downward loop over unsigned addresses does not end at address 0.
- PageTable.Directory.Lookup: the lookups for processes without a table are not modelled, because the callbacks use their result only after the deletion test.
- KrArena.Arena.Malloc: requires that growing does not wrap around 2^32 or that a free block fits, because otherwise morecore grants too little; GrantExact gives the exact condition and HugeRequests inputs that violate it.
- KrArena.Arena.FirstFit: the same condition.
- KrArena.Arena.MoreCore: requires a unit count whose rounding and new end do not wrap; GrantExact covers the others.
- KrArena.Arena.constructor: requires the static list head to lie outside the arena and not to border on its upper end, because a block ending there would be joined with it; addresses are counted in headers.
- realloc, calloc, the debug fill and the lock of the allocator.
- FormatVisible.DirectivePrints: leaves out the alternate form with %c and %s, which prints a zero more if the conversion before was octal.
- Format.Vsnprintf: requires a format whose conversions are all recognised and fit their arguments; floats, %n, wide characters, negative star precisions and the path for unrecognised specifiers are not modelled, widths and counts are unbounded integers, and output to streams is left out.
- Format.FormatString: the same condition.
- Format.ReadSpec: requires a specification that ends within the format.
- Format.ReadModifier: negative star precisions are not modelled.
- Format.Prepare: only the integer, string, character and pointer conversions are modelled.
- Strtol.PrintParse: is stated for magnitudes up to LONG_MAX; long arithmetic is taken to wrap.
- Strtol.ParseLong: bases are natural numbers.
- remove_timers, which reads past the last element and skips entries: deletion does not remove alarms in this model.
- Alarms.Alarmed: requires expiries and readings below 2^63 us, and every overflow handled before the next reading; stopping the driver is left out.
- Interrupt status bits of the timer: an interrupt that is still pending when the timer is set again is a call of the handler before the countdown has ended, see IdleExact.
- File creation through open and its callback, the directory cache and stat.
- Calls.WriteExact: concerns writes that fit the shared page; a longer one, like a malformed message, is refused before anything else happens.
- Reclaiming handles: after a completed NFS call awaits_callback stays set, so a deletion leaks the handle; safety of frees is proved, not absence of leaks.
- Kernel.Server.DeleteProcess: models files, console and waiting; pages are in Swapper.Server.DeleteProcess and alarms are left out.
- CircularBuffer.Ring.Read: requires a destination for everything stored, because the source copies that much however little was asked for.
- Shell, benchmarks, initializer, system call dispatch, network stack, serial driver and build tools.
