# A Dafny model of the lux kernel core

lux is a small microkernel for x86_64. This project models its memory stack, its system call queue and
scheduler, its local sockets, and two arithmetic routines, and proves what they keep over whole runs.

Each part has the same shape. A specification module describes one call as a relation between two states
(`MapStep`, `FaultStep`, `Step` and so on) and proves what such calls keep. A module with classes and methods
follows the C code statement by statement and proves that every call satisfies its relation. A module of runs
proves the properties of arbitrary sequences of calls by induction.

| files | part of the kernel |
|---|---|
| `Bits`, `Physical`, `FrameRuns` | the bitmap frame allocator |
| `Words`, `PageTable`, `Paging` | page table entries, the four-level tree, mapping and unmapping |
| `Virtual`, `Outcomes`, `VirtualRuns`, `UserRoom` | the first-fit virtual allocator and demand paging |
| `Clone`, `Fork`, `ForkCount`, `Release` | cloning an address space and giving a table back |
| `ManySpaces` | several address spaces over one physical memory |
| `Bytes`, `Contents`, `Access` | words and bytes read and written through the page tables, memcpy |
| `Heap`, `HeapFrames`, `HeapSizes` | malloc, realloc, free and their guard pages, the frames they give back, and the sizes for which they work |
| `SyscallQueue`, `Scheduler` | the request list, blocking and waking, round-robin selection |
| `Sockets`, `SocketIO`, `SocketCalls` | connect, listen, accept, close, send and receive, and who waits in them |
| `Numbers`, `Clock` | number printing and parsing, the Unix timestamp |

## How the state is modelled

- The bitmap stays an array of bytes with bit arithmetic. `BitSet.Holds` ties it to a set of page numbers.
  `usedPages` is a 64-bit counter that wraps around.
- Physical memory is a sequence of frames of 512 words. A word is a record of its bit fields, and
  `Bits64.Value` and `Bits64.Parse` relate it to the 64-bit integer in both directions. Page tables are found
  by following words in memory. The map from index paths to table frames is ghost, and memory determines it
  (`PageTable.TablesUnique`).
- What the processor grants is a walk over memory from a root (`PageTable.Translate`): present at every level, write and
  user rights combined over all levels, execution refused by any no-execute bit.
- A leaf whose tables are missing counts as zero. The two cases differ only in the raw attributes that
  `platformGetPage` reports (`Spaces.Reading`).
- Unmapping writes a word with nothing but the no-execute bit. Such a page still counts as used, so virtual
  addresses are never given out twice and guard pages stay refused.
- Threads are records in a table keyed by thread ID. The request list is intrusive: `next` in the record is
  the ID of the following thread, zero for null. `Requests.Chain` says which sequence the pointers spell.
- Sockets are records keyed by a descriptor number, with peer pointers and the fixed backlog array kept as
  they are.
- Contents of heap blocks are what is read through the page tables: a leaf leads to a frame, the frame holds 512
  words, a word has eight bytes (`Contents.WordAt`, `Contents.ByteAt`). Block headers live in that memory.
- Addresses are computed modulo 2^64. Pages are numbered up to 2^52; page 2^52 is page zero again.
- Several address spaces are one memory, one frame allocator and a table map per root (`ManySpaces.World`). The
  kernel half is shared, and the calls of a process there concern its user half.
- One CPU. Every handler is one atomic step. What a dispatcher does follows from the call number, its parameters,
  the status of the inner call and the flags of the descriptor (`Dispatchers.OutcomeOf`). What the outside world
  decides is a parameter: allocation failures, which signal is taken and its effect, the status of inner calls,
  the answer of a server, the result of the socket address lookup, register contents and uptime.

## Where the code does not do what one would expect

The model follows the code, and each of these has a lemma with the exact condition.

- `platformCloneUserSpace` checks only the root allocation. When frames run out further down it returns a
  child with entries that lead to frame zero. The result is an address space if and only if the free frames
  cover the recurrence (`Forking.ChildIffEnoughFrames`). Even when it works, one frame per page directory and
  page table is taken and never used (`ForkCount.ForkTakes`).
- `PMM_CONTIGUOUS_LOW` bounds where a run starts, not where it ends. It stays below 4 GiB in every memory
  state if and only if at most two frames are asked for (`FrameRuns.LowRunsStayLow`).
- `pmmFree` refuses the frame at exactly the lowest usable address, although `pmmAllocate` may hand it out. Freeing
  what was just allocated restores the allocator if and only if it is another frame (`FrameRuns.AllocateThenFree`,
  `FrameRuns.AllocateThenFreeRun`).
- `vmmAllocate` tries the base before it looks at the limit. Runs end below the limit in every address space
  if and only if the request fits between the two (`VirtualRuns.RunsBelowLimit`).
- `vmmAllocate` computes the end of a run and the last start modulo 2^64. A run that reaches 2^64 is not looked at
  at all, and its pages become reservations even when they are in use. Every page of a granted run was unused, in
  every address space, if and only if the run at the base ends below 2^64 and the request does not exceed a non-zero limit
  (`VirtualRuns.GrantedUnusedIff`). 0x7_1000_0000 pages from the kernel heap base take a live page away
  (`VirtualRuns.LivePageLost`).
- `pmmAllocateContiguous` has the same bounds. The run it accepts is free if and only if the request does not exceed
  usable memory, or, below the 4 GiB line, ends below 2^64 (`FrameRuns.AcceptedFreeIff`).
- `malloc` inherits that, and it rounds up in 64-bit arithmetic. It keeps every heap whose first block is live if and
  only if the rounding does not wrap around and the run, laid at the heap base, ends below 2^64
  (`HeapSizes.MallocKeepsIff`). `malloc(0x710000000000)` destroys the header of the first block
  (`HeapSizes.RunPastTheEnd`); `malloc(2^64 - 4111)` rounds to no page, returns the first block again and unmaps it
  (`HeapSizes.RoundedToNothing`). Smaller requests above the region return null on a heap in use
  (`HeapSizes.AboveRegion`), but on an untouched heap the block may end beyond its limit, by
  the rule of `VirtualRuns.RunsBelowLimit`.
- `syscallVerifyPointer` computes the end of a stretch modulo 2^64. A stretch that passes lies in user memory if and
  only if its end does not wrap around (`Dispatchers.AcceptedInUserIff`); one that covers the kernel half does pass
  (`Dispatchers.KernelStretchAccepted`). A stretch that ends with the last user byte is refused
  (`Dispatchers.RefusedInUserIff`).
- A call that `syscallHandle` dispatches directly overwrites the thread's status afterwards. A thread killed
  for a bad pointer then runs on or blocks for ever (`Dispatchers.DirectIff`, `Dispatchers.BadPointerRevives`). The
  queued path never revives a thread, but it loses track of a request in two families of calls
  (`Dispatchers.QueuedIff`).
- A store of the kernel to a heap page that is not there and cannot be supplied never completes. malloc then keeps its
  run reserved without a header, and realloc stops in the middle of its copy (`HeapSteps.MallocHangs`,
  `HeapRuns.StallStep`). The heap stays well formed in both cases (`HeapRuns.HeapStaysOk`).
- A page fault on page zero maps a frame and still reports failure, because the address returned is zero
  (`Virtual.PageFault`).
- The timestamp is computed in 32-bit arithmetic and overflows from 2038 on (`Clock.WallClock.Timestamp`).
- Appending a request works if and only if its link is null (`Requests.AppendIff`). The re-enqueue in
  `syscallProcess` that does not clear it would close a cycle (`Requests.StaleLinkCycles`), but it is dead
  code: `signalHandle` never makes a blocked thread runnable.
- `connect` recognises itself in a backlog by address. A socket without an address looks like every waiting
  one, so it is told that its connection is in progress although it was never queued
  (`SocketSpec.UnboundNeverJoins`). A retry is refused when the backlog is full, although it is queued
  (`SocketSpec.RetryWhileWaiting`).
- A socket in two backlogs, or closed while it waits, breaks the peer links. `SocketSpec.ConnectKeeps`,
  `SocketSpec.AcceptMutualIff` and `SocketSpec.CloseKeeps` give the exact conditions.
- `atol` overflows if and only if there are more than 19 digits or the value exceeds 2^63 - 1
  (`Numbers.Atol`).

## Model

| member | source | states |
|---|---|---|
| BitSet.SetBitAdds | src/memory/physical.c:28-50 | setting one bit of the byte array adds exactly that page to the set it represents |
| BitSet.ClearBitRemoves | src/memory/physical.c:28-50 | clearing one bit removes exactly that page from the set |
| Frames.CountsMarked | src/memory/physical.c:28-50 | the 64-bit counter and the set move together, also across wrap-around |
| Physical.FrameAllocator.Mark | src/memory/physical.c:28-50 | changes one page and the counter, or reports that the page already was in the wanted state |
| Physical.FrameAllocator.MarkContiguous | src/memory/physical.c:59-67 | every page of the run ends marked or unmarked as asked; success exactly when none was in that state before |
| Physical.FrameAllocator.IsUsed | src/memory/physical.c:192-201 | an address is used exactly when it is beyond usable memory or on a marked page |
| Physical.FrameAllocator.Allocate | src/memory/physical.c:208-224 | hands out the lowest free frame, zero only when none is free |
| Physical.FrameAllocator.Free | src/memory/physical.c:231-239 | gives back a used frame strictly inside usable memory, refuses all others without effect |
| FrameRuns.AllocateThenFree | src/memory/physical.c:208-239 | freeing the frame just allocated restores the allocator if and only if it is not the lowest usable one, which stays used |
| Physical.FrameAllocator.AllocateContiguous | src/memory/physical.c:247-285 | for every request whose search does not wrap around: terminates with the lowest start of the search range whose frames are all free, marks exactly those, never fails at marking |
| FrameRuns.AcceptedFreeIff | src/memory/physical.c:247-285 | with all bounds in 64-bit arithmetic: the run accepted consists of free frames if and only if the request does not exceed usable memory, or below the 4 GiB line ends below 2^64 |
| Physical.FrameAllocator.FreeContiguous | src/memory/physical.c:293-301 | releases exactly the used frames of the run that are in range; success only if that is all of them |
| FrameRuns.AllocateThenFreeRun | src/memory/physical.c:247-301 | the same for a run of frames, which loses only the lowest usable one |
| Frames.FreeContiguousGrows | src/memory/physical.c:293-301 | one more single free extends a released run by exactly its page |
| FrameRuns.CounterConserved | src/memory/physical.c:28-67 | at any two points of a run of calls, usedPages minus the number of set bits is the same modulo 2^64 |
| FrameRuns.CounterExact | src/memory/physical.c:28-67 | at any point of a run, usedPages equals the set bits minus their excess at the start if and only if the bits cover that excess |
| FrameRuns.OnlyFreesRelease | src/memory/physical.c:231-239 | only a free covering that page ever takes a page out of the used set |
| FrameRuns.NoDoubleGrant | src/memory/physical.c:192-239 | over every run, no frame is handed out twice without a free of it between |
| FrameRuns.LowRunsStayLow | src/memory/physical.c:247-285 | low runs end below 4 GiB in every state if and only if at most two frames are requested |
| FrameRuns.LowRunCrosses | src/memory/physical.c:247-285 | for every larger count, a memory state in which the granted run crosses 4 GiB |
| Bits64.ParseValue | src/platform/x86_64/cpu/paging.c:101-145 | every entry record is read back from its 64-bit word |
| Bits64.ValueParse | src/platform/x86_64/cpu/paging.c:101-145 | every 64-bit word is the value of one entry record |
| Bits64.Masks | src/platform/x86_64/cpu/paging.c:101-145 | the present, no-execute and frame masks select the fields of the record |
| Bits64.ZeroValue | src/platform/x86_64/cpu/paging.c:166-168 | an entry counts as missing exactly when the whole word is zero |
| Bits64.LeafWordValue | src/platform/x86_64/cpu/paging.c:204-217 | the word stored for a mapping is the aligned address plus the attribute bits |
| PageTable.AttachKeepsTree | src/platform/x86_64/cpu/paging.c:165-202 | linking an empty table into a zero entry keeps the four-level tree well formed |
| PageTable.AttachKeepsLeaf | src/platform/x86_64/cpu/paging.c:165-202 | linking an empty table changes no leaf |
| PageTable.WriteLeafKeepsTree | src/platform/x86_64/cpu/paging.c:204-217 | writing a leaf entry keeps the tree well formed |
| PageTable.WriteLeafChangesOne | src/platform/x86_64/cpu/paging.c:204-217 | writing a leaf entry changes the leaf of that page and of no other |
| PageTable.TablesUnique | src/platform/x86_64/cpu/paging.c:101-145 | memory and root determine which tables exist and where |
| PageTable.TranslateIsLeaf | src/platform/x86_64/cpu/paging.c:154-220 | in every well-formed tree the walk of the processor over all four levels, on memory and root alone, grants exactly what the leaf allows |
| Addresses.IndicesInjective | src/platform/x86_64/cpu/paging.c:101-145 | within one 256 TiB stretch, two pages have the same four indices only if they are the same page |
| Paging.Machine.GetPage | src/platform/x86_64/cpu/paging.c:101-145 | the walk reports the leaf's attributes and physical address, or nothing when a table is missing |
| Paging.Machine.MapPage | src/platform/x86_64/cpu/paging.c:154-220 | on success that leaf holds the requested word, no other leaf changes, and the processor reaches the page with exactly the rights requested; on failure, only for lack of frames, no leaf changes |
| Paging.Machine.UnmapPage | src/platform/x86_64/cpu/paging.c:227-233 | the leaf becomes a bare no-execute bit and nothing else changes |
| Spaces.MapThenGet | src/platform/x86_64/cpu/paging.c:154-220 | a page just mapped reads back as exactly the frame and attributes requested |
| Spaces.MapThenAccess | src/platform/x86_64/cpu/paging.c:154-220 | after a mapping the processor reaches the page with the write, user and execute rights requested, and only if it was mapped present |
| Spaces.OthersAccess | src/platform/x86_64/cpu/paging.c:154-220 | no other page is reached differently than before |
| Spaces.OthersRead | src/platform/x86_64/cpu/paging.c:154-220 | every other page reads as before, except that a page under a new table reads as a zero leaf |
| Spaces.AttachGrows | src/platform/x86_64/cpu/paging.c:165-202 | a new table in a free frame extends the space without touching a leaf or a used frame |
| Spaces.LeafWriteMaps | src/platform/x86_64/cpu/paging.c:204-217 | tables created on the way plus one leaf write amount to one mapping step |
| Spaces.AttachConfined | src/platform/x86_64/cpu/paging.c:165-202 | a new table below the lower half writes to no table but the root and those of the user half |
| Outcomes.MapOutcome | src/platform/x86_64/cpu/paging.c:154-220 | in every address space mapping a page has an outcome, takes at most three frames and succeeds with three free ones |
| Virtual.IsUsed | src/memory/virtual.c:45-48 | a page is used exactly when its leaf is not zero |
| Virtual.Allocate | src/memory/virtual.c:58-93 | grants the lowest run that its inner loop lets pass, with all bounds modulo 2^64, and turns its leaves into reservations that carry each requested attribute, until frames run out or page zero is reached; success exactly when the whole run was reserved; calls on the lower half write to no other half |
| Virtual.StoredAsAsked | src/memory/virtual.c:68-72 | write, user, execute and no-cache of the stored word are those of the request, and it is not present |
| UserRoom.UserRequestsStay | src/memory/virtual.c:58-93 | with at most 16 GiB of memory a request of up to 512 user pages finds its run in the lower half in every address space, although its limit lies beyond |
| Outcomes.AllocateOutcome | src/memory/virtual.c:58-93 | in every address space every request has an outcome |
| Outcomes.FaultOutcome | src/memory/virtual.c:133-189 | every fault has an outcome, and a fault on a reservation that allows it is served whenever a frame is free |
| Virtual.PageFault | src/memory/virtual.c:133-189 | supplies a frame exactly when the page is a reservation that allows the access and a frame is free, keeping permissions; reports success exactly when it did and the address is not on page zero |
| Virtual.MayServe | src/memory/virtual.c:133-165 | the checks pass exactly for reserved pages whose permissions allow the access |
| Virtual.Supply | src/memory/virtual.c:176-188 | once a frame was obtained the mapping cannot fail and creates no table; the address returned is zero only for page zero |
| Virtual.Free | src/memory/virtual.c:101-125 | lets the pages go one by one; status zero exactly when every frame and page was released |
| VirtualSteps.PagePathInjective | src/memory/virtual.c:58-93 | pages of one stretch have distinct leaf entries |
| VirtualSteps.ReserveOverwrites | src/memory/virtual.c:58-93 | whatever its pages were before, reserving a run keeps frames apart and loses no page outside the run |
| VirtualSteps.ReserveSeparates | src/memory/virtual.c:58-93 | reserving unused pages keeps table frames, page frames and free frames apart and every present page in place |
| VirtualSteps.FaultSeparates | src/memory/virtual.c:133-189 | so does a page fault, whatever it decides |
| VirtualSteps.FreeSeparates | src/memory/virtual.c:101-125 | so does freeing a page, which loses only that page |
| VirtualSteps.FreeReturns | src/memory/virtual.c:101-125 | freeing a used page allocates nothing, and the frame of a present one is free afterwards unless pmmFree refuses it |
| VirtualRuns.RunsStaySeparated | src/memory/virtual.c:58-189 | over every run, no two present pages share a frame, none uses a frame of a page table, and all these frames are marked used |
| VirtualRuns.AccessOverRuns | src/platform/x86_64/cpu/paging.c:154-220 | over every run the processor grants on each page exactly what its leaf allows |
| VirtualRuns.UsedForever | src/memory/virtual.c:45-125 | over every run, used pages stay used, and unmapped pages stay unmapped unless a search that wrapped around overwrites them |
| VirtualRuns.AllocationsDisjoint | src/memory/virtual.c:58-93 | an allocation overlaps no earlier one, not even one that was freed, if its search does not wrap around |
| VirtualRuns.ContentsSurvive | src/memory/virtual.c:58-189 | a present page keeps its entry, frame and contents until it is freed itself or a search that wrapped around takes it |
| VirtualRuns.PresentOnlyByFault | src/memory/virtual.c:133-189 | a page becomes present only by a fault on a reservation that allows the access, with its permissions kept |
| VirtualRuns.PresentWasReserved | src/memory/virtual.c:58-189 | over every run, a page that becomes present lies in the run of an earlier allocation; the processor reaches it with the rights that call asked for, it is cached as asked, and the access is one that was asked for |
| VirtualRuns.GrantedUnusedIff | src/memory/virtual.c:58-93 | every page of a granted run was unused, in every address space, if and only if base plus count is below 2^52 pages and count does not exceed the limit, unless that is zero |
| VirtualRuns.WrapOverwrites | src/memory/virtual.c:72-86 | in every space, a request that reaches 2^64 turns the page at the base into a reservation, used or not |
| VirtualRuns.LivePageLost | src/memory/virtual.c:58-93 | a run of three calls in which 0x7_1000_0000 pages from the kernel heap base take away a live page that nobody freed |
| VirtualRuns.RunsBelowLimit | src/memory/virtual.c:58-93 | granted runs end below the limit in every space if and only if base plus count does not exceed it |
| Cloning.CloneEntry | src/platform/x86_64/cpu/paging.c:250-275 | one entry of a table is cloned, skipped, or leaves the clone broken when frames run out |
| Cloning.CloneLayer | src/platform/x86_64/cpu/paging.c:242-278 | the recursion terminates; with enough frames the clone is exact and takes exactly what the recurrence counts, otherwise it is broken |
| CloneSpec.PresentDone | src/platform/x86_64/cpu/paging.c:250-275 | a cloned entry and the clone below it extend the clone of a table by one entry |
| Forking.CloneUserSpace | src/platform/x86_64/cpu/paging.c:285-309 | for the space under any root: either a complete child on fresh frames, at exactly the counted cost, or all frames are used up and the child is spoiled; the running space keeps all leaves |
| Forking.OthersUntouched | src/platform/x86_64/cpu/paging.c:285-309 | whatever cloning does, every other address space keeps its tables and leaves |
| ForkSpec.ChildIsTree | src/platform/x86_64/cpu/paging.c:285-309 | the child is a well-formed four-level tree |
| ForkSpec.ChildPages | src/platform/x86_64/cpu/paging.c:242-309 | present user pages appear with equal attributes and contents on fresh frames, reservations become empty, kernel pages are the parent's |
| ForkSpec.ChildAccess | src/platform/x86_64/cpu/paging.c:242-309 | through the tables that cloning wrote, the processor grants the child each present user page of the parent with the same rights on the copy, kernel pages as in the parent, and nothing else |
| ForkSpec.ChildPagesDistinct | src/platform/x86_64/cpu/paging.c:242-309 | distinct user pages of the child have distinct frames |
| ForkSpec.ParentUnchanged | src/platform/x86_64/cpu/paging.c:285-309 | the parent's tables, leaves and the contents of every used frame are unchanged |
| ForkSpec.SpoiledIsNoTree | src/platform/x86_64/cpu/paging.c:285-309 | a child with an entry to frame zero is no address space under any naming of its tables |
| Forking.ChildIffEnoughFrames | src/platform/x86_64/cpu/paging.c:285-309 | the child is an address space if and only if the free frames cover the recurrence |
| ForkCount.LayerCount | src/platform/x86_64/cpu/paging.c:242-278 | the recurrence counts one frame per node below a table plus one spare per interior entry |
| ForkCount.ForkTakes | src/platform/x86_64/cpu/paging.c:242-309 | a fork takes one frame per node of the child plus one spare per page directory and page table |
| Releasing.FreePT | src/platform/x86_64/sched/context.c:320-336 | gives back the frame of every table and page below a table, and no other; in the trace of reads and frees no frame is read or freed again once it was freed |
| ReleaseSpec.TraceJoins | src/platform/x86_64/sched/context.c:324-334 | the trace of a subtree followed by the free of its own frame keeps that order |
| ReleaseSpec.FreedOnce | src/platform/x86_64/sched/context.c:320-336 | in such a trace each frame below the table is freed exactly once and no other frame ever |
| Releasing.FreePTExact | src/platform/x86_64/sched/context.c:320-336 | a used frame is free afterwards if and only if a node below the table sits in it |
| Releasing.FreePTCounts | src/platform/x86_64/sched/context.c:320-336 | the used set and usedPages drop by exactly the number of nodes below, so each is released once |
| ReleaseSpec.NodeFramesDistinct | src/platform/x86_64/sched/context.c:320-336 | distinct tables and pages sit in distinct frames |
| ManySpaces.ChildSeparated | src/platform/x86_64/cpu/paging.c:285-309 | the child is an address space whose tables and pages, of both halves, have used frames of their own |
| ManySpaces.ChildApart | src/platform/x86_64/cpu/paging.c:285-309 | no frame of the child's user half belongs to any other space, nor the other way round, its parent included |
| ManySpaces.OnlookerKeeps | src/memory/virtual.c:58-189 | whatever one space does within its own and free frames, every other one keeps its tables, leaves and page contents |
| ManySpaces.ActDiscreet | src/memory/virtual.c:58-189 | allocation, fault and free on the user half write and give back only frames of that half or free ones |
| ManySpaces.ExitGrows | src/platform/x86_64/sched/context.c:320-336 | freePT calls on several user slots add up |
| ManySpaces.WorldStaysOk | src/platform/x86_64/cpu/paging.c:242-309 | over every run of forks, user memory calls and freePT in several spaces: frames have one owner within each space, and no user table or page of one space sits in a frame of another |
| ManySpaces.PagesDisjoint | src/platform/x86_64/cpu/paging.c:242-309 | at no point of such a run does a user page of one space share its frame with any page of another |
| ManySpaces.Isolated | src/platform/x86_64/cpu/paging.c:242-309 | on memory and two roots alone: no address of one process leads the processor to the frame behind a user address of another |
| ManySpaces.PageSurvives | src/memory/virtual.c:58-189 | over such runs a page keeps its frame and contents until its own process frees or overwrites it or ends |
| HeapSteps.BlockFits | src/libc/stdlib.c:97-99 | the rounding alone: header and payload fit the pages computed for a block if and only if the size is below 2^64 - 4111 |
| HeapSizes.MallocKeepsIff | src/libc/stdlib.c:97-123 | malloc keeps every heap whose first block is live, with all its blocks, if and only if the rounding does not wrap around and the run at the heap base ends below 2^64 |
| HeapSizes.MallocKept | src/libc/stdlib.c:97-123 | call by call on such a heap: it is kept exactly for those sizes, or when one of the last fifteen sizes got no block |
| HeapSizes.SearchWraps | src/libc/stdlib.c:106-114 | whatever the outcome, a request that reaches 2^64 destroys the header of a live first block |
| HeapSizes.RoundingWraps | src/libc/stdlib.c:99-118 | whatever the outcome, a size that rounds to no page returns the live first block again and unmaps its first page |
| HeapSizes.LastSizes | src/libc/stdlib.c:99-118 | the last fifteen sizes round to one page: the heap is kept exactly when no block is returned |
| HeapSizes.RunPastTheEnd | src/libc/stdlib.c:106-114 | for every size like 0x710000000000 a heap, a call and its outcome in which the first block loses its header |
| HeapSizes.RoundedToNothing | src/libc/stdlib.c:99-118 | for every size like 2^64 - 4111 a heap and a call that returns and unmaps the live first block |
| HeapSizes.AboveRegion | src/libc/stdlib.c:106-110 | a request above the region that does not wrap around returns null on a heap in use and changes nothing |
| HeapSizes.BlockInRegion | src/libc/stdlib.c:106-110 | on a heap in use every block lies right behind the used pages and ends below the limit of the region |
| HeapSizes.MallocOutcome | src/libc/stdlib.c:97-123 | on every heap malloc has an outcome for every size |
| WordBytes.PutByteAt | src/platform/x86_64/string.asm:9-26 | a byte store changes that byte of the 64-bit word and no other |
| Contents.PokeReads | src/libc/stdlib.c:112-114 | a stored word is read back at its address through the page tables, every other heap word is unchanged |
| Contents.PokeByteEvolves | src/platform/x86_64/string.asm:23-25 | a byte store changes what is read at that address only |
| Contents.FaultEvolves | src/memory/virtual.c:133-189 | a page fault brings in a page and changes nothing that could be read |
| Contents.EvolvesTrans | src/memory/virtual.c:133-189 | accesses confined to a stretch compose |
| MemoryAccess.Touch | src/memory/virtual.c:133-189 | an access to a live page makes it readable, or finds no frame left |
| MemoryAccess.Memcpy | src/platform/x86_64/string.asm:9-26 | qwords then bytes: the destination reads as the source, nothing else changes; it stops only when no frame is left |
| HeapSteps.MallocKeeps | src/libc/stdlib.c:97-123 | for every size that does not wrap around, reservation, page fault of the header, header stores and guard page: the new block lies right behind the used prefix, is large enough, overlaps nothing and disturbs no used page; a failed call adds no block |
| HeapSteps.FreeKeeps | src/libc/stdlib.c:239-245 | freeing a block keeps the prefix, the other blocks with their headers and guards, and the contents of every other page |
| HeapSteps.FreeLeaves | src/libc/stdlib.c:239-245 | exactly the pages of the block become unmapped |
| HeapFrames.FreeGivesBack | src/memory/virtual.c:101-125 | freeing a block gives back the frame of every page of it that was present, apart from one that pmmFree refuses, and no other frame |
| HeapSteps.ReallocKeeps | src/libc/stdlib.c:193-214 | a successful realloc replaces the block by one behind all used pages; a failed one keeps the blocks |
| HeapSteps.ReallocCopies | src/libc/stdlib.c:193-214 | every byte below both sizes that could be read through the page tables at the old address is read at the new one |
| HeapSteps.OtherBytesSurvive | src/libc/stdlib.c:193-214 | the bytes of every other block, read through the page tables, survive |
| HeapRuns.FaultKeeps | src/memory/virtual.c:133-189 | a page fault keeps the heap well formed and every readable word |
| KernelHeap.Allocator.Malloc | src/libc/stdlib.c:97-123 | for every 64-bit size: performs the malloc step on the machine, or hangs exactly when the page of the header is not there and cannot be supplied; keeps the heap invariant for every size that does not wrap around |
| KernelHeap.Allocator.ReadHeader | src/libc/stdlib.c:239-245 | the header words in memory are the size and the page count of the block |
| KernelHeap.Stamp | src/libc/stdlib.c:112-114 | the first header store faults the page in unless it is there, then both words are written |
| KernelHeap.Allocator.Free | src/libc/stdlib.c:239-245 | performs the free step on the machine with the page count read from the header in memory; freeing null does nothing |
| KernelHeap.Allocator.Realloc | src/libc/stdlib.c:193-214 | size zero fails, null allocates, otherwise allocate, copy the smaller size through memory and free; every outcome is a step of the run model |
| HeapRuns.HeapStaysOk | src/libc/stdlib.c:97-245 | over every run the used heap pages are a growing prefix, and live blocks are disjoint, large enough with their header and described by it |
| HeapRuns.BlocksAreKernelData | src/libc/stdlib.c:103-106 | over every run the processor lets only the kernel into a live block: writable, never open to user programs, never executable |
| HeapRuns.UnmappedForever | src/libc/stdlib.c:97-245 | over every run a guard or freed page stays unmapped |
| HeapRuns.GuardNeverInside | src/libc/stdlib.c:97-245 | a block's guard page never lies inside any block live then or later |
| HeapRuns.LastStoreIsRead | src/libc/stdlib.c:97-245 | over every run a stored byte is what is read later, until it is overwritten, freed or moved |
| HeapRuns.ContentsSurvive | src/libc/stdlib.c:97-245 | over every run a block that is not freed or moved itself stays live, and each of its bytes reads the same until it is overwritten |
| Requests.ChainDistinct | src/syscalls/queue.c:58-102 | a null-terminated request list holds no request twice |
| Requests.ChainUnique | src/syscalls/queue.c:58-102 | the pointers determine the queue |
| Requests.AppendIff | src/syscalls/queue.c:58-81 | the append yields the old queue with the request at its end if and only if the request's link was null |
| Requests.StaleLinkCycles | src/syscalls/queue.c:127-128 | re-enqueueing a dequeued request without clearing its link makes the list cyclic whenever others wait |
| Dispatchers.OutcomeKinds | src/syscalls/dispatch.c:38-932 | which arguments and descriptor flags lead each of the 63 dispatchers to a kill, a kill that is queued or unblocked again, or a stall |
| Dispatchers.WaitsIff | src/syscalls/dispatch.c:38-932 | for every call number, from its arguments alone: with good pointers exactly when it waits in the queue, when it is sent to a server, and when it is finished at once |
| Dispatchers.CheckedMemory | src/syscalls/dispatch.c:38-932 | for every call number: which paths, buffers and structures are checked before it is served |
| SyscallView.HandledWhere | src/syscalls/queue.c:22-51 | where a call with good pointers leaves its caller: running, or blocked with its request in the queue or with a server, by number and arguments |
| SyscallView.ServedWhere | src/syscalls/queue.c:109-147 | where the service of a queued call leaves its thread: dead, ready, or waiting in the queue or for a server |
| SyscallView.RespondedWhere | src/servers/syscalls.c:21-125 | an answer makes the thread ready, except for a read or write that would block on a blocking descriptor |
| Dispatchers.RegularIff | src/syscalls/dispatch.c:38-932 | a call finishes, waits or is relayed if and only if its pointers are good and no non-blocking read or write would block |
| Dispatchers.DirectIff | src/syscalls/queue.c:32-43 | direct dispatch accounts for the request and keeps the dead dead, whatever the inner call returns, if and only if the pointers are good and a read or write on a non-blocking descriptor finds an old unblock flag |
| Dispatchers.BadPointerRevives | src/syscalls/queue.c:32-43 | for every direct call with a bad pointer: the thread is terminated and then runs on, or waits for ever, by an exact condition |
| Dispatchers.NullBufferRevives | src/syscalls/dispatch.c:682-704 | recv into a null buffer by a thread that finished a call before: killed, then running |
| Dispatchers.QueuedIff | src/syscalls/queue.c:129-143 | queued dispatch keeps the account if and only if it is no accept with a bad pointer on a blocking descriptor and no read or write on a non-blocking one, and never revives a thread |
| SyscallMachine.StepKeeps | src/syscalls/queue.c:22-147 | every event, with outcomes derived from the arguments of the call, keeps: a thread is blocked exactly when its request is once in the queue or with a server, never both |
| SyscallMachine.RunKeeps | src/syscalls/queue.c:22-147 | so does every run |
| SyscallMachine.ServeEnabled | src/syscalls/queue.c:109-147 | a queued call is served to an accountable end if and only if its arguments rule out the two failing families |
| SyscallMachine.ZombieForever | src/syscalls/queue.c:109-147 | over every run no terminated thread becomes runnable again |
| SyscallMachine.ServedInOrder | src/syscalls/queue.c:58-102 | first come, first served: a request with k in front is at the head after exactly k services |
| SyscallMachine.WaitsUntilServed | src/servers/syscalls.c:21-30 | a blocked thread stays blocked until its own service or its own answer |
| SyscallQueue.Kernel.Enqueue | src/syscalls/queue.c:58-81 | appends at the end of the pointer list and sets the flags of that request only |
| SyscallQueue.Kernel.Dequeue | src/syscalls/queue.c:88-102 | removes the first request of the pointer list |
| SyscallQueue.Kernel.SignalHandle | src/ipc/signal.c:251-294 | takes at most one pending signal and changes the status only to zombie, only for a fatal one |
| SyscallQueue.Kernel.Dispatch | src/syscalls/dispatch.c:38-932 | pointer checks, then the case distinctions of the dispatcher: the request ends as the outcome of its arguments says, which `Dispatchers.WaitsIff` and `Dispatchers.OutcomeKinds` spell out, and at most this request is appended |
| SyscallQueue.Kernel.VerifyPointers | src/syscalls/dispatch.c:38-47 | the first bad pointer decides; when all pass, each lies in user memory if and only if its end does not wrap around |
| Dispatchers.AcceptedInUserIff | src/syscalls/dispatch.c:38-47 | a stretch that passes the check lies in user memory if and only if base plus length is below 2^64 |
| Dispatchers.RefusedInUserIff | src/syscalls/dispatch.c:38-47 | a stretch in user memory is refused if and only if it ends with the last user byte |
| Dispatchers.KernelStretchAccepted | src/syscalls/dispatch.c:38-47 | a send buffer that covers the kernel half passes |
| SyscallQueue.Kernel.Handle | src/syscalls/queue.c:22-51 | for every call: the exact record, status and queue afterwards; with good pointers and blocking files a step of the abstract machine that keeps list, flags and accounting |
| SyscallQueue.Kernel.Process | src/syscalls/queue.c:109-147 | for every call: the exact record, status and queue afterwards; a step of the abstract machine for all serviceable arguments |
| SyscallQueue.Kernel.Respond | src/servers/syscalls.c:21-125 | an answer wakes or re-queues exactly the waiting thread it is for, by command, status and descriptor, and is ignored otherwise |
| RoundRobin.ScanEnds | src/sched/sched.c:326-379 | an unsuccessful scan has found no survivor and left the right statuses |
| RoundRobin.LooksPicks | src/sched/sched.c:349-364 | the thread picked is the first survivor in ring order |
| Scheduler.Ring.Schedule | src/sched/sched.c:326-379 | picks the first ready thread in ring order that survives its signals, else the current one; every record afterwards is as the switch demands, with one pending signal taken from each thread looked at |
| SchedulerRuns.StrictlyAfter | src/sched/sched.c:326-379 | unless it waits itself, the current thread is chosen again only when no other ready thread survives |
| SchedulerRuns.Closer | src/sched/sched.c:326-379 | each switch runs a waiting thread or strictly shortens the ring distance to it |
| SchedulerRuns.Fair | src/sched/sched.c:326-379 | a thread that stays ready is run within as many switches as there are processes |
| SocketSpec.ConnectKeeps | src/ipc/connection.c:28-87 | a connect breaks the network if and only if the socket waits already, is not connected, and the socket found has its family, listens, has room left and holds no connection that looks like it |
| SocketSpec.ConnectAnswers | src/ipc/connection.c:28-87 | each answer of connect, if and only if by the state before the call |
| SocketSpec.BoundAgrees | src/ipc/sockinit.c:179-208 | a bound socket agrees with the address given on its bytes, keeps the rest, and its length is cut to 514 |
| SocketSpec.AcceptMutualIff | src/ipc/connection.c:134-195 | accepting keeps peer links mutual if and only if the waiting socket is not connected to another one |
| SocketSpec.AcceptKeeps | src/ipc/connection.c:134-195 | accepting keeps peers mutual, backlogs within bounds and waiting sockets open and single |
| SocketSpec.CloseKeeps | src/ipc/sockinit.c:216-249 | closing keeps all that if and only if the socket waits in no other socket's backlog |
| SocketSpec.UnboundNeverJoins | src/ipc/connection.c:71-79 | a socket without an address is told in-progress if and only if any connection waits |
| SocketSpec.RetryWhileWaiting | src/ipc/connection.c:64-79 | a retry of a queued connect reports in-progress if and only if there is room, else it is refused |
| SocketRuns.RunKeeps | src/ipc/connection.c:28-195 | over every regular run peer links are mutual, backlogs within their limit and waiting sockets open |
| SocketRuns.AcceptedInOrder | src/ipc/connection.c:134-195 | connections accepted, then those still waiting, are those queued, in order |
| SocketRuns.WaitsUntilAccepted | src/ipc/connection.c:134-195 | a connection with k in front waits until k others were accepted, and is the next |
| SocketRuns.RetryBeforeAccept | src/ipc/connection.c:28-87 | over every run, each retry before its accept is in-progress with room left and refused without |
| SocketRuns.RetryAfterOwnAccept | src/ipc/connection.c:28-87 | every later retry, whatever happened in between, succeeds if and only if it names the address the listener had, as long as neither end is closed |
| SocketRuns.OwnAccept | src/ipc/connection.c:134-195 | the accept after k others connects exactly the socket that had k others in front |
| SocketRuns.StaysConnected | src/ipc/connection.c:28-195 | a connection outlasts every call that does not close one of its ends |
| SocketRuns.Handshake | src/ipc/connection.c:28-195 | from the would-block on: a retry is in-progress (refused when full) exactly until the accept of its own socket, and succeeds if and only if that accept came before and the address matches |
| Sockets.Registry.Connect | src/ipc/connection.c:28-87 | result and the one backlog change are those of the specification, on 512-byte zero-filled addresses |
| Sockets.Registry.Bind | src/ipc/sockinit.c:179-208 | overwrites the first bytes of the address and sets its length, or refuses another family |
| Sockets.Registry.Listen | src/ipc/connection.c:96-122 | an empty backlog of the requested or default size, or none when memory is short |
| Sockets.Registry.Accept | src/ipc/connection.c:134-195 | connects the oldest waiting socket to a new one, or reports why not |
| Sockets.Registry.Close | src/ipc/sockinit.c:216-249 | the last close removes the socket and clears its peer's link |
| Messages.Conserved | src/ipc/sockio.c:47-94 | for every interleaving, messages taken followed by those queued are those sent, in order |
| Messages.ReceivedInOrder | src/ipc/sockio.c:124-157 | the next message received is the next one sent, cut only to the receiver's buffer |
| SocketIO.Endpoint.Grow | src/ipc/sockio.c:63-83 | doubling keeps the queue, also when the second allocation fails |
| SocketIO.Endpoint.Send | src/ipc/sockio.c:28-100 | the message joins the other end's queue and the pair stays linked; each error if and only if: no peer, another family, a list that had to be allocated and could not, no memory for the message |
| SocketIO.Endpoint.Recv | src/ipc/sockio.c:111-163 | the oldest message cut to the buffer, peeked or removed; without a peer, without a message and on other families the answer is the code's own, each if and only if |
| SocketCalls.ReceiveCall | src/syscalls/dispatch.c:682-704 | recv on a local connection: finished if and only if a message waits or the descriptor is non-blocking, else the caller is blocked with its request once in the queue, at its end; only user memory is written unless the buffer wraps around |
| SocketCalls.ReceiveService | src/syscalls/queue.c:109-147 | the service of a waiting recv makes the thread ready if and only if a message waits, else its request is at the end of the queue again |
| SocketCalls.SendCall | src/syscalls/dispatch.c:706-728 | send never waits, whatever the descriptor |
| SocketCalls.HandOver | src/ipc/sockio.c:28-166 | after a send to a waiting receiver, its next service hands the message over and makes it ready |
| SocketIO.Endpoint.Link | src/ipc/connection.c:181-183 | two ends linked to each other start with separate queues |
| Notation.DigitsProper | src/libc/stdlib.c:31-70 | every number has digits without a leading zero that stand for it |
| Notation.DigitsUnique | src/libc/stdlib.c:31-70 | and only one such sequence of digits |
| Notation.RemaindersReversed | src/libc/stdlib.c:31-70 | the remainders of repeated division, reversed, are those digits |
| Numbers.PutRemainders | src/libc/stdlib.c:44-57 | the digit loop writes the remainders from the least significant one |
| Numbers.Reverse | src/libc/stdlib.c:61-67 | the swap loop reverses the digits in place and touches nothing else |
| Numbers.Ltoa | src/libc/stdlib.c:31-70 | for every radix from 2 to 16 the buffer holds the one numeral without leading zero that reads back as the unsigned value, terminated, nothing behind it changed; other radices are refused |
| Numbers.PrintedReads | src/libc/stdlib.c:31-70 | for every radix, reading the text digit by digit, '0' to '9' and 'a' to 'f', gives the unsigned value back |
| Numbers.NumeralUnique | src/libc/stdlib.c:31-70 | a number has one numeral in each radix |
| Numbers.PrintedDistinct | src/libc/stdlib.c:31-70 | distinct numbers are printed as distinct texts |
| Numbers.PrintedUnique | src/libc/stdlib.c:31-70 | any digits without leading zero for that value print the same text |
| Numbers.Atol | src/libc/stdlib.c:72-95 | the value of the leading digits; an intermediate overflows if and only if there are more than 19 digits or the value exceeds 2^63 - 1 |
| Numbers.RoundTrip | src/libc/stdlib.c:31-95 | every number from 0 to 2^63 - 1 is read back from its printed form without overflow |
| Calendar.YearsClosed | src/platform/x86_64/cmos.c:93-99 | the closed count of days before a year equals counting year by year, for every year from 1970 |
| Calendar.MonthSums | src/platform/x86_64/cmos.c:82-91 | the days of the year before each month |
| Calendar.FormulaCounts | src/platform/x86_64/cmos.c:93-99 | the closed formula equals the seconds counted by the calendar, for every date from 1970 |
| Calendar.SecondsAdvance | src/platform/x86_64/cmos.c:82-99 | the count advances by one with every second, through the ends of months and years |
| Calendar.Billion | src/platform/x86_64/cmos.c:82-99 | 9 September 2001, 01:46:40 is second 10^9 |
| Calendar.NoOverflowIff | src/platform/x86_64/cmos.c:97-99 | from 2000 on, no 32-bit intermediate overflows if and only if the timestamp is below 2^31 |
| Clock.DateShownIsRead | src/platform/x86_64/cmos.c:56-80 | every date of 2000 to 2099 is decoded from its registers, binary or decimal, 12 or 24 hours |
| Clock.YearDay | src/platform/x86_64/cmos.c:82-91 | the month loop counts the days of the year before the date |
| Clock.Evaluate | src/platform/x86_64/cmos.c:97-99 | operation by operation in 32-bit arithmetic: the wrapped formula, and an overflow flag exactly when an intermediate does not fit |
| Clock.WallClock.Timestamp | src/platform/x86_64/cmos.c:47-104 | the first call yields the calendar's seconds since 1970 exactly when they are below 2^31, and otherwise flags the 32-bit overflow; later calls add whole elapsed seconds |

## Left out

- Initial state: platformPagingSetup, pmmInit's memory map and the large-page direct map; a well-formed initial state is given, and top-level slot 256 is excluded.
- RAM lies below the 16 GiB direct map, so vmmMMIO never fails.
- Clone drops the write-through bit of an entry; attributes as platformGetPage reports them are equal, raw words need not be.
- PLATFORM_PAGE_ERROR is never set by the code, so no such reading exists in the model.
- Paging.Machine.MapPage: the branch for addresses beyond the kernel base end is dead with the constants of the code and is not modelled.
- Virtual.Allocate: requires a base of at least one page, and that the pages its search looks at below 2^64 lie in one 256 TiB stretch outside slot 256; every request of the kernel heap does (VirtualRuns.HeapSearch), and user requests do as long as a run is free in the lower half (UserRoom.UserRequestsStay).
- Physical.FrameAllocator.AllocateContiguous: a request whose search wraps around makes the code write outside its bitmap; the class leaves it out, FrameRuns.AcceptedFreeIff says which requests these are.
- KernelHeap.Allocator.Malloc: the exception handler behind a refused fault is not modelled beyond the call not returning.
- KernelHeap.Allocator.Realloc: sizes for which its malloc does not keep the heap (HeapSizes.MallocKeepsIff) are excluded, because what follows works on a destroyed heap.
- ManySpaces.WorldStaysOk: kernel pages mapped by one process appear in the shared tables of all; steps on the kernel half are not part of these runs. The root of a process that ended, and the tables right below it, are not followed further.
- Releasing.FreePT: the table must be as many levels above the pages as the depth is below its maximum, as its callers arrange; platformCleanThread's outer loop is left out because it also visits absent slots.
- mmap, munmap, mmio and framebuffer mapping break frame ownership by design and are not modelled.
- SyscallQueue.Kernel.Handle: after a direct call with bad pointers, or a non-blocking read or write, only the record and the list are described, because the accounting does fail then (Dispatchers.DirectIff).
- SyscallQueue.Kernel.Process: likewise for the calls excluded by Dispatchers.QueuedIff.
- Return values and the work of the inner calls behind the dispatchers are not modelled, only their status; getcwd, closedir and seekdir check no pointers in the code either.
- Sleeping threads: with the constants of the code msleep never sleeps.
- Scheduler.Ring.Schedule: one thread per process, one CPU; time slices, CPU numbers and the context switch itself are not modelled.
- SchedulerRuns.Fair: assumes that a thread entering schedule() is not itself marked ready; on one CPU it enters running, blocked or dead.
- Process creation, children lists, descriptor reference counts and the global socket registry: their counts are not kept exact by the code.
- Sockets.Registry.Connect: descriptor checks and the address lookup are not modelled, the socket found is a parameter; comparisons beyond the 512 address bytes are not modelled.
- Locks, several CPUs, caches and TLB effects are not visible to this model.
- Numbers.Ltoa: radix 1 never terminates in the code and negative radices convert to huge unsigned ones; both are excluded.
- Clock.WallClock.Timestamp: waiting for the update flag and port input are not modelled, and a decoded month must be at most 12.
