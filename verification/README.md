# Verified models of malloclab, thrlab and shlab

This project models the parts of the repository that rewrite shared state, and proves what they promise.

**The allocator** (`malloclab-handout2/mm.c` over `memlib.c`). The arena is an array of 32-bit words; pointers are word
indices, so byte addresses are four times as large. Class `Allocator` rewrites that array the way the C code does, tag
by tag and link by link. Three ghost views go with it: `blk`, the blocks that tile the heap; `free`, the nodes of the
free list in order; `Owned()`, the payload words of every live block. `Valid()` says that the words agree with all
three: the tiling is complete, header and footer of every block match, the list is doubly linked, NULL at both ends and
holds exactly the free blocks, and no two free blocks touch. Every operation is proved to keep `Valid()` and states
what it does to `Owned()`. The proofs are about values (`Shape`, `ShapeLemmas`, `CoalesceLemmas`, `PlaceLemmas`,
`ReallocLemmas`, `Bytes`); the methods take snapshots of the arena and call them. `mm_realloc` has an outcome type,
since the code can also exit, call the wrong `free`, or hand `mm_free` a pointer to no block; for each outcome the
exact condition is proved.

**Its client** (`mdriver.c`). Class `Driver` is the interpreter for traces, with its range list and its byte comparison.
On every well-formed trace that asks for at least one byte each time and never lets a realloc grow by more than one
chunk covers (a promised trace), the replay reports success if and only if `mem_sbrk` never refuses and no reallocated
id has a low byte that a signed `char` spoils. The utilization run completes on promised traces if and only if
`mem_sbrk` never refuses, and divides the true high-water mark by the true heap size. `ImplicitList` is the search of
`mm-firstfit.c`, which succeeds on the same requests.

**The sleeping barbers** (`thrlab/main.c` against `thrlab/help.c`). `Monitor` is the status machine that counts
complaints: its gauges, rooms and complaints stay sound whoever calls it. `Barbershop` is the protocol as a transition system: any
number of barbers and customers, one action of one thread a step, a semaphore operation enabled only when it does not
block. A failed `Sem_trywait` exits the process in the code as written; the model also allows it to return, so that the
reject branch is reached, and everything is proved for both. `BarbershopCapacity` says when it can fail: exactly if
there are more visitors than chairs.

**The shell** (`shlab-handout2/tsh.c`). `JobTable` is the job list in place, `Shell` the read loop interrupted by SIGCHLD
between any two actions, `Parseline` the tokenizer in place over its buffer; the lines typed into `Shell` are read
by it. `ShellBuiltins` says what each kind of line does to the entries of the list, from any state that a run can reach.

**The sampler** (`malloclab-handout2/fcyc.c`). `Sampler` keeps the K smallest measurements.

In the transition systems a run is a sequence of steps; where a step would index outside an array or use a stale
entry, the run may lead to any state whatever, so the theorems about runs include that this never happens.

Where the code does not do what it is meant to, the model keeps the code. `Allocator.GrowthBreaks`,
`Driver.SignsSpoilATrace` and `JobTable.NumbersCollide` are concrete failing runs; `Shell.FastChildCrashes` and
`BarbershopCapacity.ExitsIff` say for which inputs a run can fail. The exact conditions are in `Allocator.MmRealloc`,
`Driver.EvalMmValid`, `Shell.CrashesExactly`, `JobTable.AddDistinct` and `BarbershopCapacity`.
`Shell.RaceWithoutMask` shows the race that blocking SIGCHLD prevents.

## Model

| member | source | states |
|---|---|---|
| Allocator.Allocator.MmInit | malloclab-handout2/mm.c:141-158 | on a reset arena the heap is prologue, epilogue and one free chunk, and nothing is live |
| Allocator.Allocator.MmMalloc | malloclab-handout2/mm.c:165-193 | NULL exactly for an empty request or when nothing fits and the break cannot move; otherwise a live block that was nobody's, with room for the request and less than 16 bytes more than its adjusted size, every other block and every old payload unchanged; on both paths it is cut to the adjusted size exactly when the free block it comes from (the first fit, or what is left at the end of the grown heap) has 16 bytes to spare, and the rest is a free block that heads the list |
| Allocator.Allocator.MmFree | malloclab-handout2/mm.c:200-207 | the heap stays well-formed and exactly this block leaves the live ones; block and free words on both sides become one free block that heads the list, and no other block changes |
| Allocator.Allocator.MmRealloc | malloclab-handout2/mm.c:217-344 | exactly when it resizes, returns NULL, exits, calls the C library's free, or frees something that is no block; which neighbours are taken in (the block above if it is enough, else the one below, else both, with the run that becomes one block); otherwise it grows in place behind the last block, or moves to a block that was nobody's; a resized block keeps the bytes that both sizes allow and no other payload changes; it stays where it is for the same size or a shrink of 16 bytes or more, and never moves the break when its free neighbours suffice; a failed call changes nothing |
| Allocator.Allocator.ReallocShrink | malloclab-handout2/mm.c:252-262 | the block shrinks in place, and the tiling is the split one after a maximal merge of the tail |
| Allocator.Allocator.ReallocNext | malloclab-handout2/mm.c:266-275 | the block takes in the free block above and keeps its bytes |
| Allocator.Allocator.ReallocPrev | malloclab-handout2/mm.c:279-290 | sliding down into the free block below, over itself, keeps the bytes and stays clear of the new footer |
| Allocator.Allocator.ReallocBoth | malloclab-handout2/mm.c:295-308 | the same with the free blocks on both sides |
| Allocator.Allocator.ReallocGrow | malloclab-handout2/mm.c:313-328 | one chunk more behind the last block: right if and only if the rest of it is at least 16 bytes |
| Allocator.Allocator.ReallocMove | malloclab-handout2/mm.c:331-343 | the payload moves to a fresh block with the bytes that fit; exits exactly when there is none |
| Allocator.Allocator.CopyOut | malloclab-handout2/mm.c:338-340 | the copy between two live blocks, which may read past the payload of the old one, changes no other payload |
| Allocator.Allocator.ExtendHeap | malloclab-handout2/mm.c:396-413 | NULL exactly when the break cannot move; otherwise the new block overwrites the epilogue and merges with a free block below |
| Allocator.Allocator.Place | malloclab-handout2/mm.c:422-441 | asize bytes are cut from the free block, or all of it if less than 16 bytes would be left; the rest is a free block that heads the list; no other block changes, and only this block becomes live |
| PlaceLemmas.PlacedIsCut | malloclab-handout2/mm.c:422-441 | a block is split exactly when 16 bytes would be left, and the rest heads the list |
| PlaceLemmas.GrownBlock | malloclab-handout2/mm.c:396-413 | the free words at the end of the grown heap start at the last block if that was free, else at the old break, and reach the new one |
| Allocator.Allocator.FindFit | malloclab-handout2/mm.c:447-458 | the first node in list order whose block is large enough, every node before it being too small; NULL exactly if all are |
| Allocator.Allocator.Coalesce | malloclab-handout2/mm.c:463-506 | in all four cases the block becomes the maximal free run around it, at the front of the list, and the heap is well-formed again |
| Allocator.Allocator.AbsorbNext | malloclab-handout2/mm.c:477-482 | the case of a free block above |
| Allocator.Allocator.AbsorbPrev | malloclab-handout2/mm.c:485-491 | the case of a free block below |
| Allocator.Allocator.AbsorbBoth | malloclab-handout2/mm.c:494-502 | the case of two |
| Allocator.Allocator.InsertBlock | malloclab-handout2/mm.c:512-533 | the list gains a node at the front, and only link words change |
| Allocator.Allocator.RemoveBlock | malloclab-handout2/mm.c:536-557 | the list loses this node and nothing else, and only link words change |
| Allocator.AdjustedHoldsRequest | malloclab-handout2/mm.c:176-179 | the adjusted size leaves room for the request if and only if the 32-bit addition does not wrap; it is a multiple of 8, at least 16, and wastes less than 16 bytes |
| Allocator.ReallocSumExact | malloclab-handout2/mm.c:252 | exactly when the sum that the shrink test compares is not truncated |
| Allocator.EndsTell | malloclab-handout2/mm.c:217-344 | each way for mm_realloc to end tells which branch it took |
| Allocator.TakesBelow | malloclab-handout2/mm.c:279-290 | the free block below is taken in only when the one above is not enough |
| Allocator.TakesBoth | malloclab-handout2/mm.c:295-308 | both are taken in only when neither is enough alone |
| Allocator.FreedRun | malloclab-handout2/mm.c:463-506 | what mm_free leaves is one free block over the whole free run, at the head of the list |
| Allocator.OneChunkInUse | malloclab-handout2/mm.c:313-328 | the heap of the failing example, and that it takes the growing branch |
| Allocator.GrowthBreaks | malloclab-handout2/mm.c:313-328 | from a fresh heap, mm_malloc(4088) and mm_realloc to 8192 bytes free something that is no block |
| ShapeLemmas.ReadTags | malloclab-handout2/mm.c:101-106 | what the macros read at a block is its size and status |
| ShapeLemmas.NoneInside | malloclab-handout2/mm.c:16-33 | no block starts inside another |
| ShapeLemmas.FuseTiled | malloclab-handout2/mm.c:477-502 | merging a run of blocks leaves a tiling |
| ShapeLemmas.FuseTagged | malloclab-handout2/mm.c:477-502 | two tag words at the ends of a run are all that a merge has to write |
| ShapeLemmas.SplitTiled | malloclab-handout2/mm.c:427-435 | cutting a block leaves a tiling |
| ShapeLemmas.SplitTagged | malloclab-handout2/mm.c:427-435 | the four tag words that a cut has to write |
| ShapeLemmas.LinksKeepTags | malloclab-handout2/mm.c:512-557 | writing the links of free blocks touches no tag |
| ShapeLemmas.LinksKeepPayloads | malloclab-handout2/mm.c:512-557 | nor any live payload |
| ShapeLemmas.UnlinkLinked | malloclab-handout2/mm.c:536-557 | unlinking a node leaves a doubly linked list |
| ShapeLemmas.PushLinked | malloclab-handout2/mm.c:512-533 | so does pushing one |
| CoalesceLemmas.MergeRestores | malloclab-handout2/mm.c:463-506 | merging the run around a loose free block restores the whole invariant |
| PlaceLemmas.FreeStep | malloclab-handout2/mm.c:200-207 | after the two tags are cleared the heap is well-formed but for the block being freed |
| PlaceLemmas.PlaceWhole | malloclab-handout2/mm.c:436-440 | taking a block whole keeps the heap well-formed |
| PlaceLemmas.PlaceSplit | malloclab-handout2/mm.c:427-435 | cutting it leaves the heap well-formed but for the rest |
| PlaceLemmas.RestStandsAlone | malloclab-handout2/mm.c:427-435 | the rest has no free neighbour, so coalesce only inserts it |
| PlaceLemmas.GrowStep | malloclab-handout2/mm.c:396-413 | the three words that turn new space into a free block and an epilogue |
| PlaceLemmas.FirstFitFinds | malloclab-handout2/mm.c:447-458 | first fit finds a block if and only if some node of the list is large enough |
| PlaceLemmas.FirstFitIsFirst | malloclab-handout2/mm.c:447-458 | the node found is the first in list order that is large enough |
| ReallocLemmas.ShrinkStep | malloclab-handout2/mm.c:252-262 | the four tags of a shrink leave the heap well-formed but for the tail |
| ReallocLemmas.TakeSpan | malloclab-handout2/mm.c:266-308 | one live block in place of a block and its free neighbours keeps the invariant and every other payload |
| ReallocLemmas.SlideDone | malloclab-handout2/mm.c:279-308 | the same, with the payload moved down over the old block |
| ReallocLemmas.GrowTail | malloclab-handout2/mm.c:313-328 | the tags written after growing: two blocks in place of block and chunk |
| ReallocLemmas.NoRoomNoBlock | malloclab-handout2/mm.c:319-326 | with less than 16 bytes left, no tiling has a block where the code frees one |
| Bytes.SetByteGets | malloclab-handout2/mm.c:288 | a byte written into a word changes that byte and no other |
| Bytes.Memcpy | malloclab-handout2/mm.c:288 | an ascending byte copy is right for overlapping regions when it moves down |
| Bytes.Memset | malloclab-handout2/mdriver.c:633 | the bytes filled, and no others |
| MemLib.Memory.MemInit | malloclab-handout2/memlib.c:25-35 | an arena of MAX_HEAP bytes with the break at its start |
| MemLib.Memory.MemResetBrk | malloclab-handout2/memlib.c:48-51 | the break is back at the start |
| MemLib.Memory.MemSbrk | malloclab-handout2/memlib.c:58-69 | the break never shrinks nor passes the end; failure exactly for a negative increment or one that does not fit |
| HeapProperties.HeapIsAccountedFor | malloclab-handout2/mm.c:141-158 | in every well-formed heap the user blocks, met by walking up, add up to the heap size less 16 |
| HeapProperties.FreeAlternates | malloclab-handout2/mm.c:463-506 | along the heap free blocks outnumber allocated ones by at most one |
| HeapProperties.FreeListIsShort | malloclab-handout2/mm.c:447-458 | the list that find_fit walks has at most one node more than there are live blocks |
| HeapProperties.NothingLiveOneBlock | malloclab-handout2/mm.c:463-506 | with nothing live the heap is one free block of heapsize - 16 bytes, alone in the list |
| HeapProperties.FreeUndoesPlace | malloclab-handout2/mm.c:422-441 | freeing what place took gives back partition and set of free blocks, split or not |
| HeapProperties.MallocThenFree | malloclab-handout2/mm.c:165-207 | the same for the two calls, payloads and break included |
| HeapProperties.ListSearchIsComplete | malloclab-handout2/mm.c:447-458 | the list search succeeds if and only if some free block of the heap is large enough |
| ImplicitList.FindFitImplicit | malloclab-handout2/mm-firstfit.c:257-268 | the lowest large enough free block, found exactly when the explicit list finds one |
| ImplicitList.SearchesAgree | malloclab-handout2/mm-firstfit.c:257-268 | the two searches fail together |
| Driver.Driver.AddRange | malloclab-handout2/mdriver.c:389-437 | accepts exactly the aligned payloads inside the heap with neither end in a known range |
| Driver.Driver.RemoveRange | malloclab-handout2/mdriver.c:442-457 | drops the first range that starts there |
| Driver.Driver.ClearRanges | malloclab-handout2/mdriver.c:462-472 | no ranges are left |
| Driver.Driver.DoAlloc | malloclab-handout2/mdriver.c:612-638 | never a bad range; a failure means an empty request or a refused break |
| Driver.Driver.DoRealloc | malloclab-handout2/mdriver.c:640-675 | never a bad range; what each failure implies about the request |
| Driver.Driver.DoFree | malloclab-handout2/mdriver.c:677-683 | the id leaves the records, and all else holds |
| Driver.Driver.Compare | malloclab-handout2/mdriver.c:663-669 | the comparison of filled bytes succeeds if and only if char is unsigned or the low byte is below 128 |
| Driver.Driver.EvalMmValid | malloclab-handout2/mdriver.c:585-693 | replaying any well-formed trace: what each way to stop implies about the request that met it, out of memory meaning that mem_sbrk refused it at the present break; a promised trace passes if and only if every comparison can succeed and mem_sbrk never refuses, and if the arena has a chunk for each request it never does |
| Driver.Driver.CountOp | malloclab-handout2/mdriver.c:718-775 | after every request the total is the sum of the live requests, or the request was empty, grew too much, or was refused memory |
| Driver.Driver.EvalMmUtil | malloclab-handout2/mdriver.c:706-786 | the figure divided by the heap size is the total after some number of requests and at least the total after every other, although it is not updated on a free; it is at most the heap size; a promised trace completes if and only if mem_sbrk never refuses |
| Trace.MarkMoves | malloclab-handout2/mdriver.c:718-775 | the high-water mark stays right when it is updated on allocations and reallocations only |
| Driver.OnlyMemoryOrSigns | malloclab-handout2/mdriver.c:605-689 | on a promised trace a request can fail only for want of memory or for the signed comparison |
| Driver.AffordableIsServed | malloclab-handout2/memlib.c:58-69 | a request of a trace that fits the arena at a chunk each is never refused |
| Driver.SignsSpoilATrace | malloclab-handout2/mdriver.c:663-669 | replaying alloc(128, 8), realloc(128, 16) is reported as data lost by the second request where char is signed, and passes where it is not |
| Trace.EndTestMissesContainment | malloclab-handout2/mdriver.c:417-430 | add_range's test misses exactly the overlaps in which the new payload strictly contains the old one |
| Trace.PayloadsApart | malloclab-handout2/mdriver.c:417-430 | payloads of live blocks never overlap, so nothing is missed |
| Trace.NewRangePasses | malloclab-handout2/mdriver.c:389-437 | every new live block passes all three tests |
| Trace.AdjustedIsLeast | malloclab-handout2/mm.c:176-179 | no smaller block could hold the request |
| Trace.OthersSurvive | malloclab-handout2/mdriver.c:656-669 | what the client wrote into one block survives any request on another |
| Trace.RequestedFitsHeap | malloclab-handout2/mdriver.c:706-786 | the live requests never add up to more than the heap less 16 bytes |
| Monitor.Thrlab.Setup | thrlab/help.c:827-910 | the shop opens empty, without complaints |
| Monitor.Thrlab.AddCustomer | thrlab/help.c:1078-1101 | a new id, pending |
| Monitor.Thrlab.AcceptCustomer | thrlab/help.c:1117-1164 | answers like the value function in every status, and keeps gauges, rooms and complaints sound |
| Monitor.Thrlab.RejectCustomer | thrlab/help.c:1166-1217 | the same of reject |
| Monitor.Thrlab.PrepareCustomer | thrlab/help.c:1219-1317 | the same of prepare, with the room |
| Monitor.Thrlab.DismissCustomer | thrlab/help.c:1319-1416 | the same of dismiss, with the room and the time |
| Monitor.Thrlab.CheckDeparture | thrlab/help.c:1041-1050 | the same of the end of a customer's thread |
| Monitor.CallKeeps | thrlab/help.c:1030-1416 | every call keeps the gauges equal to the numbers of pending, waiting and cutting customers, and the occupied rooms in one-to-one correspondence with the cutting ones |
| Monitor.AnyClient | thrlab/help.c:1030-1416 | whatever a client calls, in whatever order: nobody is dismissed that was not being cut, so four complaints never occur, and more customers than chairs wait only with a complaint |
| Monitor.TakesRoom | thrlab/help.c:1285-1301 | a waiting customer is in no room, so the second test for a busy room never fires |
| Monitor.CallMovesOn | thrlab/help.c:1117-1416 | no call moves a customer back or past a stage, and no complaint is forgotten |
| Monitor.DrawnExactly | thrlab/help.c:1041-1416 | for each of the 25 complaints, when a call draws it, told from status, room, gauges and clock; each once |
| Monitor.MovedExactly | thrlab/help.c:1117-1416 | exactly which calls move a customer to waiting, rejected, being cut or done, and that nobody else moves |
| Monitor.RoomsExactly | thrlab/help.c:1219-1416 | exactly when a room is taken or left |
| Barbershop.StartOk | thrlab/main.c:124-155 | the invariant holds before any customer |
| Barbershop.FetchReadsOldest | thrlab/main.c:107 | the slot that a barber reads holds the oldest customer that waits |
| Barbershop.ModApart | thrlab/main.c:193 | positions less than max apart never share a slot |
| Barbershop.OnlyBarber | thrlab/main.c:105-114 | a barber in the critical section is alone there |
| Barbershop.EnteringKeeps | thrlab/main.c:191 | an accept always finds a free chair, so it draws no complaint |
| Barbershop.SittingKeeps | thrlab/main.c:193 | the insert overwrites nobody that waits |
| Barbershop.SeatedKeeps | thrlab/main.c:199 | a customer is woken only after its own haircut |
| Barbershop.LeavingKeeps | thrlab/main.c:181-205 | no customer leaves during its haircut |
| BarbershopSafety.FetchingKeeps | thrlab/main.c:107 | taking the oldest customer out keeps the invariant |
| BarbershopSafety.PreparingKeeps | thrlab/main.c:108 | prepare always meets an empty room and a waiting customer |
| BarbershopSafety.FinishingKeeps | thrlab/main.c:110 | dismiss always meets the customer of this room, being cut |
| BarbershopSafety.WakingKeeps | thrlab/main.c:112 | the post reaches the customer just served, once |
| BarbershopSafety.StepKeeps | thrlab/main.c:93-205 | every action of every thread keeps the invariant, with the semaphore accounts in it |
| BarbershopRuns.RunKeeps | thrlab/main.c:93-205 | so does every run |
| BarbershopRuns.NoComplaints | thrlab/help.c:1117-1416 | over any interleaving the monitor complains of nothing but the clock, or of a reject with a chair free, and not of that if a failed trywait exits |
| BarbershopCapacity.ExitsIff | thrlab/main.c:243-250 | some run exits at a failed trywait if and only if there are more visitors than chairs |
| BarbershopCapacity.RejectAvailIff | thrlab/help.c:1194-1195 | were a failed trywait to return, some run would draw the complaint about a reject with a chair free if and only if there are more visitors than chairs and at least one chair |
| BarbershopCapacity.EnoughChairs | thrlab/main.c:181-205 | with no more visitors than chairs no run exits or turns anybody away, and every run that cannot go on has all visitors dismissed |
| BarbershopCapacity.DoorIsOpen | thrlab/main.c:188 | then whoever is at the door finds a slot |
| BarbershopCapacity.StepThrifty | thrlab/main.c:93-205 | no slot is held for nobody: barbers hold those of customers they fetched, and everyone visits once |
| BarbershopRuns.RingIsAQueue | thrlab/main.c:101-117 | read off the array, the ring is a FIFO queue of at most max customers |
| BarbershopRuns.OneHaircut | thrlab/main.c:105-114 | at most one barber is between fetching a customer and waking it |
| BarbershopRuns.FirstComeFirstServed | thrlab/main.c:93-119 | customers are prepared and dismissed in the order in which they sat down, each at most once |
| BarbershopRuns.DoneIsDismissed | thrlab/help.c:1319-1416 | the monitor calls a customer done if and only if it was dismissed |
| BarbershopRuns.StepDecreases | thrlab/main.c:93-205 | every action lowers the measure |
| BarbershopRuns.RunsAreBounded | thrlab/main.c:93-205 | no run over N customers has more than 17 N + 1 actions |
| BarbershopRuns.StuckIsServed | thrlab/main.c:93-205 | no deadlock: with a barber around, a state in which nobody can move and nobody exited has everyone served |
| BarbershopRuns.EveryoneIsServed | thrlab/main.c:279-290 | every run that cannot go on ends with all visitors dismissed or turned away, all gauges 0 and all slots back, unless it exited; and with every visitor dismissed if nobody can be turned away |
| JobTable.Jobs.InitJobs | shlab-handout2/tsh.c:532-537 | sixteen clear entries, the next number 1 |
| JobTable.Jobs.MaxJid | shlab-handout2/tsh.c:540-550 | the largest number in use |
| JobTable.Jobs.AddJob | shlab-handout2/tsh.c:553-578 | the first free entry is filled, or the call fails and nothing changes |
| JobTable.Jobs.DeleteJob | shlab-handout2/tsh.c:581-597 | the entry is cleared and the next number is one above the largest left |
| JobTable.Jobs.FgPid | shlab-handout2/tsh.c:600-609 | the process of the first foreground entry, 0 if there is none |
| JobTable.Jobs.GetJobPid | shlab-handout2/tsh.c:612-624 | the first entry of the process |
| JobTable.Jobs.GetJobJid | shlab-handout2/tsh.c:627-640 | the first entry with the number |
| JobTable.AddNumbers | shlab-handout2/tsh.c:565-568 | below the wrap job numbers stay distinct and below the next one |
| JobTable.AddDistinct | shlab-handout2/tsh.c:565-568 | at any time addjob keeps them distinct if and only if the next one is not in use |
| JobTable.DeleteNumbers | shlab-handout2/tsh.c:592 | deletejob puts the next number above all in use |
| JobTable.NumbersCollide | shlab-handout2/tsh.c:565-568 | after the wrap two jobs can share a number: fifteen jobs, one done, two more |
| Shell.StepKeeps | shlab-handout2/tsh.c:181-483 | every action of main loop and handler keeps the invariant of list, children and foreground; what each line and each signal does beyond that is in the rows of `ShellBuiltins` |
| ShellBuiltins.ByJob | shlab-handout2/tsh.c:306-423 | from any reachable prompt, a line of the words bg, %n puts the first entry with number n into the background, changes no other, and is back at the prompt; fg puts it into the foreground and waits for it |
| ShellBuiltins.ByPid | shlab-handout2/tsh.c:306-423 | the same of a process number |
| ShellBuiltins.ChangesNothing | shlab-handout2/tsh.c:312-404 | jobs, and fg or bg without an argument, with a malformed one or with a number that no entry has, change nothing |
| ShellBuiltins.Quits | shlab-handout2/tsh.c:308-311 | quit ends the shell |
| ShellBuiltins.Launched | shlab-handout2/tsh.c:198-231 | any other command gets the first free entry and the next number, in the background exactly if its last word starts with &; then the shell is back at the prompt, and otherwise it waits for that entry |
| ShellBuiltins.WaitEnds | shlab-handout2/tsh.c:428-437 | the wait for a foreground job ends exactly when its entry is no longer in the foreground |
| ShellBuiltins.ChildStops | shlab-handout2/tsh.c:468-474 | a stopped child on the list gets state ST, and no other entry changes |
| ShellBuiltins.ChildEnds | shlab-handout2/tsh.c:455-466 | a child that has ended leaves the list, no other entry changes, and the next number is one above all left |
| ShellBuiltins.NumberOfDecimal | shlab-handout2/tsh.c:384-398 | a number as it is printed is read back as itself |
| ShellBuiltins.RunTidy | shlab-handout2/tsh.c:553-597 | in every run an entry has a number exactly if it has a process |
| Shell.ListIsTheChildren | shlab-handout2/tsh.c:202-226 | wherever SIGCHLD strikes, the list holds children not reaped yet, each once, and all of them that found room |
| Shell.OneForeground | shlab-handout2/tsh.c:428-437 | at most one job is in the foreground, and none at the prompt |
| Shell.SignalsReachForeground | shlab-handout2/tsh.c:490-513 | ctrl-c and ctrl-z signal the one foreground job, which outside the handler is a child not reaped yet, and nobody at the prompt |
| Shell.WaitingIsReached | shlab-handout2/tsh.c:428-437 | while the main loop waits for a foreground job, it is the one signalled |
| Shell.CrashesExactly | shlab-handout2/tsh.c:181-483 | in every reachable state a step crashes the shell if and only if it types a line without a token, with a single token that starts with &, or with 128 tokens or more; or waitfg looks for a child that is reaped or found the list full; or the handler learns that such a child has stopped |
| Shell.FastChildCrashes | shlab-handout2/tsh.c:226-231 | any foreground command can take the shell with it, by ending before waitfg looks it up |
| Shell.RaceWithoutMask | shlab-handout2/tsh.c:204-226 | without the blocked SIGCHLD any background command can stay on the list after it was reaped |
| Parseline.ParseLine | shlab-handout2/tsh.c:249-300 | in place, argv points at the tokens of the line as C strings, NULL at the end, with the & taken off and reported; out of bounds exactly from 128 tokens on |
| Parseline.FindDelim | shlab-handout2/tsh.c:277-287 | where the next argument starts and ends |
| Parseline.StrChr | shlab-handout2/tsh.c:283-286 | the first place of the character before the terminator |
| Parseline.ParseInvertsPrint | shlab-handout2/tsh.c:249-300 | the tokens of a printed line are the arguments printed, plain or quoted, with any number of spaces between, and none needed after a closing quote |
| Parseline.UnclosedIsDropped | shlab-handout2/tsh.c:266-288 | an argument whose quote is never closed is dropped with all that follows, and the arguments before it are kept |
| Parseline.EveryLine | shlab-handout2/tsh.c:259-288 | every line that ends in a newline is of one of these two kinds, so its tokens are known |
| Parseline.ParsePrinted | shlab-handout2/tsh.c:249-300 | parseline returns exactly the arguments printed, but for a last one that starts with & |
| Parseline.NoTokensIff | shlab-handout2/tsh.c:259-288 | a line has no tokens if and only if it is blank or begins with a quote that is never closed |
| Parseline.NoArgumentsIff | shlab-handout2/tsh.c:289-299 | argv[0] is NULL if and only if there is no token, or a single one that starts with & |
| Sampler.Sampler.InitSampler | malloclab-handout2/fcyc.c:50-62 | no samples |
| Sampler.Sampler.Sink | malloclab-handout2/fcyc.c:82-87 | the insertion loop puts the last value where it belongs among sorted ones |
| Sampler.Sampler.AddSample | malloclab-handout2/fcyc.c:67-88 | values holds the first min(n, k) of all n samples in sorted order |
| Sampler.Sampler.HasConverged | malloclab-handout2/fcyc.c:93-98 | true if and only if at least k of all samples are at most 1 + epsilon times the smallest |
| Sampler.Sampler.Fcyc | malloclab-handout2/fcyc.c:129-168 | the minimum of the samples taken, at most max(1, maxsamples); it stops at the limit or when at least k samples are at most 1 + epsilon times the minimum, and after no fewer samples was that so |
| Sampler.KthIsWithin | malloclab-handout2/fcyc.c:93-98 | the k-th smallest is at most a bound if and only if at least k samples are |
| Sampler.SortSorts | malloclab-handout2/fcyc.c:82-87 | the reference order is sorted and a permutation |
| Sampler.InsertsAt | malloclab-handout2/fcyc.c:82-87 | a value goes after everything up to it and before everything above it |
| Sampler.JoinedIsPrefix | malloclab-handout2/fcyc.c:70-76 | keeping only the k smallest loses nothing: the online step is the prefix of the full sort |

## Left out

- Allocator.Allocator.MmMalloc: sizes above 0xFFFFFFF0, for which the addition wraps; `Allocator.AdjustedHoldsRequest` shows that this bound is exact.
- Allocator.Allocator.MmRealloc: sizes above 0xFFFFFFE0; `Allocator.ReallocSumExact` shows that from there on the shrink test compares a truncated sum. What follows a call with size 0, which goes to `free` of the C library, and a call of `mm_free` on something that is no block, is not modelled either.
- Allocator.Allocator.MmInit: only on a reset arena, where its first `mem_sbrk` cannot fail; the code would not notice (it compares with NULL, not -1).
- MemLib.Memory.MemSbrk: the overflow of the pointer sum, since addresses are offsets; the arena is taken to start at a multiple of 8.
- Bytes.Memcpy: the C library leaves overlapping copies undefined; the ascending byte loop is one behaviour.
- Barbershop.StartOk: front and rear are unbounded where the code has ints; overflow needs 2^31 customers.
- Parseline.ParseLine: an empty command line, for which the code writes before its buffer; fgets never returns one.
- Sampler.Sampler.Fcyc: reals instead of doubles, and no k below 1, for which the code reads before the array.
- Pointers are word indices: unaligned access and addresses outside the arena cannot be written down.
- `mm_checkheap`, `printfreelist`, `printblock` and the tests in them: debug output.
- `place` and `coalesce` of `mm-firstfit.c`: the tag writes of `mm.c` without the list.
- Whether a haircut was too fast or too slow: the clock is a parameter of the step.
- Shell.CrashesExactly: numbers after fg and bg are unbounded, where atoi overflows.
- Fairness between threads: no bound on waiting is claimed beyond the bound on runs.
- `execve`, process groups, `kill` and what children do between their changes of state; the text that is printed.
- Command-line options, `read_trace`, timing and performance figures, names and random arrivals.
- `buflab-handout`, `sty15-hw1` and the scripts: no state to model.
