# A verified model of the garbage collector in gc_src

This project models the four layers of the garbage collector backend and proves what they promise. From the bottom up:

- **Address book** (`gc_src/virt.c`). Tables of cells, each with a stack of free indices, and an index-based doubly linked
  list of the tables that have space. `AddressTable`, `AddressBook` are the sequential code; `ConcurrentBook` is a step
  system in which every critical section of `adb_put_p`, `adb_free` and their helpers is a step of its own, for any number
  of threads, and `ConcurrentCalls` counts what the calls have done when they return, and shows that they all can.
  `BookList` holds the list surgery that both share.
- **Memory block** (`gc_src/mb.c`). A boundary-tag allocator in an array of bytes, with a doubly linked free list sorted by
  size threaded through the free bodies, splitting, coalescing, and a compaction that moves live data under virtual
  addresses. A value wider than a byte occupies the cell of its first byte, and the cells behind it hold `Rest`, so that
  any overlapping write destroys it: footers, links and stored addresses are really read back from memory. `BlockLayout`
  has the tags and links, `BlockState` the well-formedness of a block, `BlockView` what virtual addresses stand for,
  `BlockOps` what each operation does to the pieces, `MemBlockModule` the code.
- **Memory space** (`gc_src/ms.c`). Many blocks over one book: a search at random indices, the fallback block,
  and the header that names the owning block (`MemSpaceModule`).
- **Collector** (`gc_src/cs.c`). `RootSetModule` is the root set, `Collector` the cycle with no mutator beside it, with its
  two stacks and nested loops, on top of the invariant in `Marking`. It runs on the memory space: `ObjectBytes` lays objects
  out in the bodies of blocks, `ObjectSpace` has each access to a header, a reference or a status as reads and writes of
  those bytes under the lock of the object, and filtering the space by the status bytes is the sweep of the heap they stand
  for. So `CollectGarbage` follows references that are stored in memory, and frees pieces of the boundary-tag allocator.
  `ConcurrentCollector` is a step system with one collecting thread and any number of mutators; taking a lock, reading the
  status, reading the flag, pushing references and setting the status are separate steps. On it, `CollectorOrder` is what
  every step keeps whatever the colours, `CollectorSnapshot` the snapshot invariant of marking, `CollectorInvariant` both
  together with the sweep, `CollectorSafety` safety and precision, `CollectorAlone` completion, `CollectorWind` and
  `CollectorExact` how exact the hypothesis of safety is, `CollectorLate` visits that come after marking, `CollectorEarly`
  the half of a cycle before the roots are pushed, `CollectorStarts` concrete starts in which something goes wrong, and
  `CollectorCycles` whole cycles, one after the other. `CollectorHistory`, `CollectorStacks` and `CollectorPrelude` read what
  a run leaves off its steps: roots, references, data, locks, what mutators know, and the stacks.

The stacks are the chunked deque of `util_src/data.c`, modelled with its chain of tables in `BrokenCollection` and proved to
be a plain sequence. `Graph` is reachability by paths; `Common` has what all share.

## What is proved of the concurrent collector

A cycle begins with painting white, in any state in which no other is under way (`Begin`); mutators may be anywhere, holding
locks and inside the barrier. However they run beside it, when it comes to the push of the roots it is in a `Start` state
(`PreludeEstablishesStart`), and from there every interleaving is allowed: reading, writing behind the barrier, storing any
known address, rooting, derooting, allocating, and the sweep. If that state was clean, as defined below, the next cycle may
begin when this one is done (`NextCycleMayBegin`); so safety and the freeing of garbage hold for any number of clean cycles
with mutators running all the while (`AllCyclesAreSafe`, `AllCyclesFreeGarbage`). From whatever state a cycle begins in, it
can be completed: the mutators can give back their locks, and the collector then comes to the end by itself
(`EveryCycleCanBeCompleted`).

Safety does not hold from every start, so it comes with an exact condition on the start state. `Clean` says that marking
will come to each white object in use, or that a mutator is already visiting it. Marking comes to what the stacked addresses
lead to: through a white object that nobody holds for writing to its references, and, where a mutator inside the barrier
has a lock that the collector will have to wait for, to the object of that barrier and its references. `SafeExactlyWhenClean`
proves, for all starts, that nothing dangles in any interleaving if and only if the start is clean.
`QuiescentStartIsClean` gives the usual sufficient condition: all objects are white, nobody is writing, and what mutators
know is under the roots. `CollectorStarts` has a start for each of the three that breaks only that one and is not safe, with
the mutator and collector steps that lead to it from the beginning of a cycle: `FilledTooSoonIsNotSafe`, an object that was
allocated and filled before the roots were pushed, which is itself never traced; `HeldTooLongIsNotSafe`, a white object that
a mutator has held for writing since before the flag was set, so that it can erase references that marking has not seen; and
`KnownToOneIsNotSafe`, an object that a mutator knows but no root leads to.

The guard in `cs_get_write` (`gc_src/cs.c:452`) compares the address, not the status, with `GC_NEWLY_ADDED`. The models do
what the code does: the barrier visits newly added objects too. This has a consequence. The comment at
`gc_src/cs.c:457-460` says that marking cannot end between a mutator's look at the flag and its visit. That is so for white
and grey objects that marking comes to, but not for newly added ones (`LateVisitsAreOfNewObjects`), and a finished cycle may
leave addresses on the in-progress stack for the next one: from a clean start with any mutator at all there is such a run,
and with none there is not (`LeftEmptyExactlyWithoutMutators`). A cycle in which the barrier visits no newly added object
leaves the stack empty, provided that no visit of an object that marking would not come to is under way at the start
(`LeftEmptyUnlessNewIsVisited`); without the proviso that is false (`VisitUnderWayIsLeftOver`). Safety and precision of that
cycle hold all the same; the next cycle starts with those addresses on its stack, which `Begin` and `Start` allow for.

Runs keep what mutators have put in: each root is what the last step that added or dropped it made of it
(`RootsFollowHistory`), each reference what was last stored (`RefsFollowHistory`), data and lengths what was allocated
(`TablesFollowHistory`), and a mutator has exactly the locks it took and knows exactly the addresses it read
(`LocksFollowHistory`, `KnowledgeFollowsHistory`). So an object that stays rooted is never freed (`RootedIsKept`). The collector
visits each object at most once, and only objects that were white when the roots were pushed (`EachIsVisitedOnce`).

## What else differs from what the documentation says

- `mb_free_space` promises that a request succeeds if and only if it is at most the space (`gc_src/mb.h:21-23`). The
  contract of `MemBlock.FreeSpace` says that a request is so decided if and only if its padding does not wrap around a 64-bit
  sum, or no piece is free. `WrappedRequestIsGranted` is a block with room for 2 bytes that grants a request for 2^64 - 33.
- The comment in `util_src/data.c:164-171` says the chain of tables never shrinks. With deletion on it does, exactly when a
  pop leaves a table (`PopBack`, `PopFront`), and is then as long as `TablesAreNeeded` says; `ChainMayShrink` is a case.
- `ms_malloc_p` says its last allocation should always work (`gc_src/ms.c:190`). It does unless the request with its header,
  or the default block size, wraps around when it is padded (`HeaderFitsUnlessItWraps`, `FallbackFitsUnlessItWraps`).

## Model

| member | source | states |
|---|---|---|
| CollectorOrder.StepKeepsOrder | gc_src/cs.c:426-697 | every step keeps locks with their holders, and what roots, mutators and used objects refer to in existence |
| CollectorInvariant.GcKeepsInv | gc_src/cs.c:642-697 | every step of the collecting thread, with pop, lock, status check, push, painting and unlock apart, keeps the invariant of the cycle |
| CollectorInvariant.MutKeepsInv | gc_src/cs.c:426-466 | so does every step of a mutator, with each look of the write barrier apart |
| CollectorInvariant.StepKeepsInv | gc_src/cs.c:591-697 | the snapshot invariant in all: each white object that the start led to is still led to, from a queued address or a grey object |
| CollectorInvariant.NothingLeftToMark | gc_src/cs.c:642-685 | with both stacks empty at the end of an unproductive iteration, no object in use is white or grey but what mutators are visiting that marking would not come to |
| CollectorSafety.CollectionIsSafe | gc_src/cs.c:617-690 | from a clean start, after any run: nothing a mutator knows or can reach has been freed; once both stacks have been seen empty, what it can reach is newly added or black, or still being visited since the start; nothing reachable is doomed, and the sweep never waits for a mutator |
| CollectorSafety.CollectionIsPrecise | gc_src/cs.c:36-42 | from a clean start, after any run: only objects live at the start or newer are ever stacked, garbage of the start stays untouched until freed, only white objects that nobody could use are freed, and a finished cycle has freed all that the stacked addresses did not lead to; with nothing left over on the stack, exactly the white objects not in use |
| CollectorHistory.RootsFollowHistory | gc_src/cs.c:326-400 | over any run, every root id gives what the last step that added or dropped it made of it, and what it gave before if there was none; so adding or dropping one root leaves all others |
| CollectorHistory.RootedIsKept | gc_src/cs.c:326-400 | in a clean cycle, an object rooted at any time and not derooted since is there, under the same id, and is not freed |
| CollectorHistory.RootedIsNeverFreed | gc_src/cs.c:617-690 | an object rooted when the roots are pushed and never derooted is not freed in a clean cycle |
| CollectorHistory.RefsFollowHistory | gc_src/cs.c:426-466 | over any run, every reference of an object is what was last stored there, null if nothing has been since its allocation, and what it was if neither happened; the collector moves none |
| CollectorHistory.TablesFollowHistory | gc_src/cs.c:239-272 | the data and the number of references of an object are as they were allocated, and its colour only turns darker |
| CollectorHistory.ObjectsFollowHistory | gc_src/cs.c:239-272 | objects come by allocation and go by being freed, and both are recorded |
| CollectorHistory.LocksFollowHistory | gc_src/cs.c:445-470 | a mutator has a read or write lock exactly if it took it, or got it with a new object, and has not given it back since |
| CollectorHistory.LocksExclude | gc_src/ms.c:244-254 | the write lock of an object excludes all others, the collector's included, and an idle mutator gets a lock of an object it knows exactly when nobody has one that excludes it |
| CollectorHistory.IdleMayAct | gc_src/cs.c:326-470 | in every state of a run from a clean start, an idle mutator may read, add or drop roots, load, store and unlock exactly as its locks and what it knows allow |
| CollectorHistory.BarrierNeverWaits | gc_src/cs.c:445-466 | inside the barrier, with its lock taken, a mutator never waits |
| CollectorHistory.KnowledgeFollowsHistory | gc_src/cs.c:402-424 | a mutator knows exactly the addresses that it has read in a root or an object, or was given for a new one, and has not forgotten since |
| CollectorStacks.StacksAreLifo | gc_src/cs.c:642-685 | both stacks are last in, first out: a visit pushes its references one by one in order, a white object is pushed when it turns grey, and the collector goes on with what it pops |
| CollectorStacks.LoopsDrain | gc_src/cs.c:642-685 | each inner loop goes on until its stack is empty, and the outer one until an iteration has been unproductive |
| CollectorStacks.IterationIsProductive | gc_src/cs.c:642-685 | beside any mutators, an iteration counts as productive exactly when it has popped one of the stacks |
| CollectorStacks.EachIsVisitedOnce | gc_src/cs.c:656-679 | from any start and beside any mutators, the collector visits only objects that were white at the start, each at most once |
| CollectorAlone.MarkingEnds | gc_src/cs.c:642-685 | where no mutator has a lock in a set that stacked addresses and references do not lead out of, the collector by itself marks within that set and comes to the end of the loop |
| CollectorAlone.CycleCompletes | gc_src/cs.c:642-697 | from any state that a run from a clean start reaches in which no mutator has a lock, the collector can finish the cycle by itself |
| CollectorWind.WindDown | gc_src/cs.c:445-470 | a mutator anywhere can finish its barrier, erase what it may write to, and give back all its locks, while nobody else moves |
| CollectorExact.UncleanStartLosesAnObject | gc_src/cs.c:656-662 | from every unclean start there is a run that leaves a reachable address dangling |
| CollectorExact.SafeExactlyWhenClean | gc_src/cs.c:116-125 | for every start, nothing dangles in any interleaving if and only if the start is clean |
| CollectorStarts.FilledTooSoonIsNotSafe | gc_src/cs.c:659-662 | a prelude that ends in a start in which nobody is writing and what mutators know is rooted, but a newly added object was filled too early, and which is not safe |
| CollectorStarts.HeldTooLongIsNotSafe | gc_src/cs.c:445-466 | a prelude that ends in a start with all objects white and what mutators know rooted, but a white object has been held for writing since before the flag was set, and which is not safe |
| CollectorStarts.KnownToOneIsNotSafe | gc_src/cs.c:98-125 | a prelude that ends in a start with all objects white and nobody writing, but a mutator knows an object that no root leads to, and which is not safe |
| CollectorLate.LateVisitsAreOfNewObjects | gc_src/cs.c:452-463 | after any run from a clean start, once the loop has seen the in-progress stack empty for the last time, whatever a mutator still visits is newly added, or was being visited at the start and is not led to |
| CollectorLate.LeftEmptyUnlessNewIsVisited | gc_src/cs.c:642-697 | a finished cycle from a clean start leaves the in-progress stack empty if the barrier visits nothing that is newly added, and no visit of an object that marking would not come to is under way at the start |
| CollectorStarts.VisitUnderWayIsLeftOver | gc_src/cs.c:452-463 | a prelude to a clean start with such a visit under way, and a finished run from it that visits nothing newly added and leaves an address on the stack |
| CollectorLate.StackMayBeLeftOver | gc_src/cs.c:452-463 | from any clean start with a mutator, some run finishes, with every lock given back, and leaves an address on the stack |
| CollectorLate.LeftEmptyExactlyWithoutMutators | gc_src/cs.c:642-697 | from a clean start, every finished cycle leaves the in-progress stack empty if and only if there is no mutator |
| CollectorEarly.PreludeEstablishesStart | gc_src/cs.c:600-629 | painting, setting the flag and pushing the roots, one object at a time and beside any mutators, ends in a start state, with the old garbage white and still garbage |
| CollectorPrelude.PreludeKeepsRoots | gc_src/cs.c:600-629 | the roots that are pushed are those that the mutators' steps have left |
| CollectorPrelude.LockedRootsStand | gc_src/cs.c:603-629 | once the root set is locked no root changes until all have been pushed |
| CollectorPrelude.PreludeKeepsRefs | gc_src/cs.c:600-629 | no object goes or changes its data before the roots are pushed, and every reference is what was last stored there |
| CollectorPrelude.PreludePaintsAll | gc_src/cs.c:600-601 | all objects that were there when the pass began are white after it, if no mutator has ended a visit |
| CollectorPrelude.PreludeStacks | gc_src/cs.c:617-629 | what was left over on the stack stays, barriers push on top of it, and the roots come last |
| CollectorEarly.CycleIsSafeExactlyWhenClean | gc_src/cs.c:600-697 | the rest of such a cycle is safe in every interleaving if and only if that state is clean |
| CollectorEarly.CycleFreesOldGarbage | gc_src/cs.c:38-42 | if the state after the push of the roots was clean: what no handle or stacked address led to before the first object was painted is freed when the cycle is done |
| CollectorEarly.NextCycleMayBegin | gc_src/cs.c:687-697 | the state in which a cycle from a clean start ends is one in which the next may begin |
| CollectorCycles.PreludeIsSafe | gc_src/cs.c:600-629 | nothing dangles while objects are painted and roots are pushed, beside any mutators |
| CollectorCycles.AllCyclesAreSafe | gc_src/cs.c:591-697 | after any number of clean cycles, mutators running all the while, nothing dangles in the prelude of the next, nor, if that is clean, in the rest of it |
| CollectorCycles.AllCyclesFreeGarbage | gc_src/cs.c:38-42 | in any sequence of clean cycles, each has freed what was garbage when it began |
| CollectorCycles.EveryCycleCanBeCompleted | gc_src/cs.c:591-697 | from every state a cycle may begin in, mutators can give back their locks and the collector then completes prelude, marking and sweep by itself |
| CollectorCycles.QuietCycleIsExact | gc_src/cs.c:36-42 | a cycle that begins with no lock held and mutators knowing only what the roots lead to can be completed by the collector alone, and then has freed exactly what nobody could use |
| CollectorEarly.QuiescentStartIsClean | gc_src/cs.c:98-125 | a start with all objects white, nobody writing, and mutators knowing only what the roots lead to, is clean |
| Collector.CollectedSpace.CollectGarbage | gc_src/cs.c:591-697 | on the bytes of the memory space: frees exactly the objects no path of references leads to from a live root, returns their number, keeps references and data of the others, leaves both stacks empty and no lock held; pops the in-progress stack once per live root entry and per non-null reference of an object in use, and the visit stack once per object in use; does nothing when a cycle is under way |
| Collector.CollectedSpace.Mark | gc_src/cs.c:631-685 | the nested loops end, with both stacks empty and the invariant of marking kept on the objects in memory; the visit stack is empty whenever an iteration of the outer loop starts |
| Collector.CollectedSpace.PopProgress | gc_src/cs.c:645-667 | one pop of the in-progress stack, under the lock of the object, keeps the invariant and brings marking nearer to its end |
| Collector.CollectedSpace.PopVisit | gc_src/cs.c:669-684 | one pop of the visit stack, under the lock of the object, keeps the invariant and paints nothing white |
| Collector.CollectedSpace.VisitObj | gc_src/cs.c:426-443 | the non-null references in memory are pushed in order and the object turns black |
| Collector.CollectedSpace.GetWrite | gc_src/cs.c:445-466 | the barrier visits exactly when the flag is set and the status is not VISITED, changes nothing else, and leaves the caller with the lock |
| Collector.CollectedSpace.StoreRef | gc_src/cs.c:445-466 | the owner of the lock stores a reference in memory, which changes that reference of that object alone |
| Collector.CollectedSpace.Malloc | gc_src/cs.c:239-272 | a new address, not null, whose bytes are a newly added object with null references; the lock and the pointer are kept or given back as asked; it is no part of what is in use until something refers to it |
| Collector.CollectedSpace.MallocRoot | gc_src/cs.c:363-374 | a new object that a new root refers to, with its lock given back; what is in use is what it was and the new object |
| Collector.CollectedSpace.PaintWhite | gc_src/cs.c:580-584 | every object is white afterwards, otherwise the same |
| Collector.CollectedSpace.PushRoots | gc_src/cs.c:617-629 | the live root entries are pushed in the order of their ids |
| Collector.CollectedSpace.Sweep | gc_src/ms.c:312-335 | what is left is what was not white, and the result is how many are gone |
| Collector.RootListIsLive | gc_src/cs.c:620-626 | the pushed addresses are those of the abstract root map, one for each id |
| Collector.SurvivorsStayInUse | gc_src/cs.c:689-696 | everything that survives is still in use, so a second cycle frees nothing |
| ObjectBytes.RoundTrip | gc_src/cs.c:239-265 | an object is read back from the status, lengths, references and data laid out behind the header, whatever follows |
| ObjectBytes.StoresRef | gc_src/cs.c:445-466 | writing 16 bytes of the reference table changes that reference and nothing else |
| ObjectBytes.PaintsStatus | gc_src/cs.c:580-584 | writing the status bytes changes the status and nothing else |
| ObjectBytes.FilterIsSweep | gc_src/cs.c:586-589 | what passes a filter that reads the status bytes stands for the swept heap, and is as many |
| ObjectSpace.SweepSpace | gc_src/cs.c:690 | filtering a memory space sweeps the heap that its bytes stand for, also while others hold objects that are not white |
| ObjectSpace.NewObject | gc_src/cs.c:239-272 | the bytes written behind the header stand for a newly added object with null references, and all other objects are as they were |
| ObjectSpace.SetStatus | gc_src/cs.c:580-584 | four writes into the body change the status of that object alone |
| ObjectSpace.GetRef | gc_src/cs.c:433-437 | the bytes in the k-th place of the reference table are the k-th reference |
| Marking.PopGreys | gc_src/cs.c:653-662 | popping a found address keeps the invariant: the visit stack holds exactly the grey objects, each once, and the count of pops adds up |
| Marking.PopVisits | gc_src/cs.c:670-679 | so does visiting a grey object |
| Marking.MarkEnds | gc_src/cs.c:642-685 | with both stacks empty the black objects are those in use, and the numbers of pops are exact |
| Graph.ReachIsClosed | gc_src/cs.c:98-103 | what paths reach is closed under references |
| Graph.ReachIsLeast | gc_src/cs.c:98-103 | and is the least such set |
| RootSetModule.RootSet.constructor | gc_src/cs.c:215-220 | one entry, free |
| RootSetModule.RootSet.Root | gc_src/cs.c:326-361 | the id is new, the head of the free list, and maps to the address, other ids keep theirs, the array doubles exactly when no entry was free, and the free list still visits each other free entry once, in the same order, and ends |
| RootSetModule.RootSet.Grow | gc_src/cs.c:329-346 | the doubled array lists exactly its new half and keeps all roots |
| RootSetModule.RootSet.Deroot | gc_src/cs.c:376-400 | the id leaves the map and heads the free list, or the status says why there was nothing to do |
| RootSetModule.RootSet.GetRootVaddr | gc_src/cs.c:402-420 | agrees with the map from ids to addresses, with the status for ids out of bounds or not allocated |
| RootSetModule.ChainIsUnique | gc_src/cs.c:192-194 | the head and the entries determine what the free list visits |
| RootSetModule.PopKeepsList | gc_src/cs.c:349-354 | taking the head leaves a list of exactly the other free entries |
| RootSetModule.PushKeepsList | gc_src/cs.c:393-395 | giving an entry back makes it the head of a list of exactly the free entries |
| BrokenCollection.Collection.PushBack | util_src/data.c:277-302 | appends to the sequence; a table is added exactly when the chain ends there |
| BrokenCollection.Collection.PushFront | util_src/data.c:304-323 | prepends to the sequence; a table is added exactly when the chain starts there |
| BrokenCollection.Collection.PopBack | util_src/data.c:325-345 | takes the last element, and only steps to tables that exist; with deletion the chain loses a table exactly when the last table is left |
| BrokenCollection.Collection.PopFront | util_src/data.c:347-370 | takes the first element; with deletion the chain loses a table exactly when the first table is left |
| BrokenCollection.Collection.Empty | util_src/data.c:269-275 | true exactly for the empty sequence |
| BrokenCollection.Collection.ForEach | util_src/data.c:372-392 | visits exactly the sequence, in order |
| BrokenCollection.Collection.Len | util_src/data.c:399-404 | the length of the sequence |
| BrokenCollection.Collection.NumTables | util_src/data.c:249-267 | the number of tables in the chain |
| BrokenCollection.Collection.TablesAreNeeded | util_src/data.c:325-370 | with deletion on, the chain always has (first_start + length) / table_size + 1 tables |
| BrokenCollection.ChainMayShrink | util_src/data.c:325-345 | a chain of tables for one element each, with deletion, that has one table less after a pop |
| BrokenCollection.WriteBack | util_src/data.c:280-283 | writing the cell behind the window appends to the sequence it stands for |
| BrokenCollection.WriteFront | util_src/data.c:319-322 | writing the cell before the window prepends |
| BrokenCollection.WindowTables | util_src/data.c:187-193 | how many tables a window of given start and length reaches over |
| AddressTable.AddrTable.PutP | gc_src/virt.c:121-162 | with no free index reports NO_SPACE and changes nothing; otherwise takes the top one, writes that cell only, and reports NEWLY_FULL for the last one and SUCCESS for any other; each index stays on the stack or taken, never both |
| AddressTable.AddrTable.FreeCell | gc_src/virt.c:312-339 | that cell is empty and its index on top of the stack; reports NEWLY_FREE for a table that was full, SUCCESS for any other |
| AddressTable.AddrTable.TryGetWrite | gc_src/virt.c:271-289 | the address, and the lock, unless someone holds it |
| AddressTable.AddrTable.Indices | gc_src/virt.c:341-364 | the taken cells, in order |
| AddressTable.FillIsTaken | gc_src/virt.c:99-108 | stack and taken cells add up to the capacity, so the stack of a table with a taken cell has room |
| AddressBook.AddrBook.PutP | gc_src/virt.c:589-643 | a new address, not null, in the table at the head of the list, maps to the pointer; a table is opened only when every cell of every table is taken |
| AddressBook.AddrBook.FreeV | gc_src/virt.c:752-761 | the address is gone from the map, no table is |
| AddressBook.AddrBook.TryExpand | gc_src/virt.c:501-530 | adds one table with all of its cells free exactly when the list is empty, doubling the book exactly when it is full, and the list holds exactly the tables with space |
| AddressBook.AddrBook.TryRemoval | gc_src/virt.c:532-587 | a full table leaves the list, which is otherwise in the same order; any other stays |
| AddressBook.AddrBook.TryAddition | gc_src/virt.c:721-750 | a table with space that was not in the list becomes its head, others are unchanged |
| AddressBook.AddrBook.FreeInTable | gc_src/virt.c:752-761 | the address is gone, its index is on top of the stack of its table, and a table that was full becomes the head of the list |
| AddressBook.AddrBook.MoveP | gc_src/virt.c:212-243 | the address maps to the new pointer, all others as before |
| AddressBook.AddrBook.IsAllocated | gc_src/virt.c:645-657 | true exactly for the keys of the map |
| AddressBook.AddrBook.ForEach | gc_src/virt.c:765-841 | lists every allocated address exactly once |
| AddressBook.AddrBook.TablesArePeakRoundedUp | gc_src/virt.c:501-530 | in sequential runs the number of tables is the peak fill divided by table_cap, rounded up |
| BookList.PushLinks | gc_src/virt.c:485-499 | pushing an entry gives a well-formed list with it in front |
| BookList.UnlinkLinks | gc_src/virt.c:568-583 | unlinking gives a well-formed list without the entry |
| ConcurrentBook.StepKeepsInv | gc_src/virt.c:121-761 | every critical section of every thread keeps the invariant of the book |
| ConcurrentBook.ListIsRepaired | gc_src/virt.c:532-761 | after any interleaving the list is well formed, a full table still in it has a thread about to remove it, and a table with space outside it has a thread about to add it |
| ConcurrentBook.QuietListIsExact | gc_src/virt.c:589-761 | when no thread is inside a call, the list holds exactly the tables with space |
| ConcurrentBook.IndicesArePartitioned | gc_src/virt.c:121-339 | after any interleaving each index is exactly one of free on the stack, carried by one put or free, or taken; no two threads carry the same |
| ConcurrentBook.StackNeverOverflows | gc_src/virt.c:328-336 | the push at the end of a free always has room |
| ConcurrentCalls.CallsAreFulfilled | gc_src/virt.c:589-643 | in every interleaving, a thread at rest has written as many cells as it has begun puts, and returned as many indices as it has cleared cells |
| ConcurrentCalls.TakenIsWrittenLessCleared | gc_src/virt.c:121-162 | the taken cells of all tables are as many as have been written and not cleared |
| ConcurrentCalls.TakenUntilCleared | gc_src/virt.c:312-339 | a cell stays taken until someone frees that very address |
| ConcurrentCalls.LooksAreExact | gc_src/virt.c:592-623 | a thread at rest has looked at the list once for each put and once more after each request for a table and each table that turned out full; it has requested one exactly when a look found none, and tried one exactly when a look found it |
| ConcurrentCalls.ListIsAskedExactly | gc_src/virt.c:625-636 | a thread at rest has tried a removal as often as it took the last index of a table, and an addition as often as it returned the first |
| ConcurrentCalls.TableIsAddedWhenNoneHasSpace | gc_src/virt.c:501-530 | the book grows by one table, all of it free, and only when every other table is full or about to be listed by some thread |
| ConcurrentCalls.EveryCallCanReturn | gc_src/virt.c:589-761 | from every state that any interleaving comes to, all calls under way can return with no other call being made |
| ConcurrentCalls.PutCanSucceed | gc_src/virt.c:589-643 | from every quiet state, a put by any thread has a run that returns with one cell more taken |
| ConcurrentCalls.FreeCanSucceed | gc_src/virt.c:752-761 | and a free of any address given out one that returns with one cell less taken |
| BlockLayout.PadNumBytes | gc_src/mb.c:141-152 | sizes are even and at least the minimum, even when the sum wraps |
| BlockLayout.PadFitsUnlessItWraps | gc_src/mb.c:141-152 | a padded size has room for the request if and only if the request is at most 2^64 - 34 |
| BlockLayout.PadIsExact | gc_src/mb.c:138-152 | a piece of even size is large enough for the padded request if and only if the request is at most the size less the padding |
| BlockLayout.PadIsLeast | gc_src/mb.c:138-152 | the padded size is the least even one, and at least the minimum, with room for the request, if and only if the request is at most 2^64 - 34 |
| BlockLayout.UnlinkListed | gc_src/mb.c:279-291 | taking a piece out leaves links that lead through the others, both ways |
| BlockLayout.RelinkListed | gc_src/mb.c:295-342 | inserting a piece gives links that lead through all, both ways |
| BlockState.RelinkWF | gc_src/mb.c:313-341 | inserting before the first piece that is no larger keeps the list sorted by size and complete |
| BlockState.MergeWF | gc_src/mb.c:344-398 | writing the tags of a merged piece keeps tiling, tags and list |
| BlockState.TakeSomeWF | gc_src/mb.c:493-503 | so does cutting a free piece in two |
| BlockState.SlideWF | gc_src/mb.c:615-629 | so does moving an allocated piece into the free piece before it |
| BlockState.ShiftedCoalesced | gc_src/mb.c:631-657 | after a shift no two free pieces are adjacent |
| BlockOps.SizesSumToCap | gc_src/mb.c:154-157 | the sizes of the pieces of a well-formed block add up to its capacity |
| BlockOps.EvenDistance | gc_src/mb.c:376-396 | merged sizes are even |
| BlockOps.SpaceIsExact | gc_src/mb.c:260-276 | the size of the first free piece less the padding decides a request if and only if its padding does not wrap around, or nothing is free |
| BlockOps.PackedHasNoGaps | gc_src/mb.h:74-78 | a packed block has one free piece at most, and its allocated pieces lie without gap from the start |
| BlockOps.ShiftLowers | gc_src/mb.h:88-91 | a shift lowers the sum of the offsets of allocated pieces, so repeating it ends |
| BlockOps.ShiftKeepsOrder | gc_src/mb.c:597-657 | a shift changes one address, downwards, and keeps the order of all |
| BlockOps.UnlockedIsPacked | gc_src/mb.c:539-595 | if every piece that could move is locked but no address of the block is, the block is packed |
| BlockView.MoveKeepsBodies | gc_src/virt.c:230-238 | a move, also an overlapping one, changes where an address leads but not to which bytes |
| BlockView.OtherBlockAgrees | gc_src/ms.c:122-135 | a block does not notice what happens to addresses of other blocks |
| MemBlockModule.MemBlock.constructor | gc_src/mb.c:198-221 | one free piece of the padded size, in a well-formed block |
| MemBlockModule.MemBlock.RemoveFromSize | gc_src/mb.c:279-291 | memory becomes the unlinked one and the head is right |
| MemBlockModule.MemBlock.AddToSize | gc_src/mb.c:295-342 | memory becomes the relinked one, in front of the first piece that is no larger |
| MemBlockModule.MemBlock.Coalesce | gc_src/mb.c:345-398 | the freed piece and its free neighbours become one, no two free pieces are adjacent, every other body is untouched |
| MemBlockModule.MemBlock.MallocP | gc_src/mb.c:438-526 | succeeds if and only if a free piece is large enough; then a largest one is cut, or taken whole when the rest would be too small, a new address stands for a body large enough, and all others for what they did; on failure nothing changes |
| MemBlockModule.MemBlock.Free | gc_src/mb.c:400-436 | the address is gone, all others stand for what they did, and the piece and its free neighbours are one |
| MemBlockModule.MemBlock.FreeSpace | gc_src/mb.c:260-276 | for every request of 64 bits: that it fits exactly when it is at most the result holds exactly up to 2^64 - 34, or when nothing is free |
| MemBlockModule.WrappedRequestIsGranted | gc_src/mb.c:141-152 | a block with a result of 2 that grants a request for 2^64 - 33 |
| MemBlockModule.MemBlock.Count | gc_src/mb.c:664-684 | the number of allocated pieces |
| MemBlockModule.MemBlock.TryShift | gc_src/mb.c:528-662 | not needed exactly when packed, busy exactly when all that could move is locked; otherwise the first possible piece of the list moves down by the size of the free piece; no address stands for other bytes than before |
| MemBlockModule.MemBlock.TryFullShift | gc_src/mb.h:88-91 | ends for any set of held locks; with none held on the block it ends packed, in the original order |
| MemBlockModule.MemBlock.StoreBody | gc_src/ms.c:124-125 | writing into a body changes that body alone |
| MemSpaceModule.MemSpace.constructor | gc_src/ms.c:43-61 | one empty block, made for the default block size, that agrees with an empty book |
| MemSpaceModule.MemSpace.EveryBlockIsRoomy | gc_src/ms.c:181-188 | every block of a space has room for a request of the default block size |
| MemSpaceModule.NewMemSpaceSeed | gc_src/ms.c:37-61 | null exactly for a default block size of 0, otherwise such a space |
| MemSpaceModule.MemSpace.MallocP | gc_src/ms.c:140-210 | for every seed a request that is not zero and does not overflow gets a new address, not null, with a header and at least the requested bytes; the darts are the numbers drawn modulo the length of the list; the block is the first hit with room, after no more darts than a third of the blocks and one at least, or a new one after exactly so many have missed |
| MemSpaceModule.MemSpace.NextRnd | gc_src/ms.c:97-120 | the seed counts up, never to 0, and the number is drawn from it in 64-bit arithmetic |
| MemSpaceModule.FirstDraw | gc_src/ms.c:97-120 | the number drawn with seed 1, whose 64-bit sum has wrapped around, and the seeds that lead to it |
| MemSpaceModule.SeedsAreDifferent | gc_src/ms.c:97-109 | no seed comes twice in 2^64 - 1 draws, and none is 0 |
| MemSpaceModule.MemSpace.NewBlock | gc_src/ms.c:181-188 | the new block is made for the larger of the request and the default block size, and no larger |
| MemSpaceModule.HeaderFitsUnlessItWraps | gc_src/ms.c:140-141 | the piece for a request has room for it behind the header if and only if the request is at most 2^64 - 42 |
| MemSpaceModule.FallbackFitsUnlessItWraps | gc_src/ms.c:181-190 | the fallback block has room for the request if and only if the default block size is at most 2^64 - 34 |
| MemSpaceModule.MemSpace.MallocNew | gc_src/ms.c:181-207 | the request is served by a new block of that size, which joins the end of the list |
| MemSpaceModule.MemSpace.MallocIn | gc_src/ms.c:122-135 | the header names the block, and the lock is kept or given back as asked |
| MemSpaceModule.MemSpace.Free | gc_src/ms.c:212-220 | the header leads to the block, and only this address is gone |
| MemSpaceModule.MemSpace.Filter | gc_src/ms.c:304-335 | what is left is what the predicate accepts, and the result is how many are gone, while others read objects it accepts |
| MemSpaceModule.MemSpace.TryFullShift | gc_src/ms.c:226-242 | every block ends packed or with all that could move locked; no address stands for anything else, and order is kept |
| MemSpaceModule.MemSpace.Count | gc_src/ms.c:342-348 | the number of addresses is the sum of the numbers of allocated pieces of the blocks |
| MemSpaceModule.MemSpace.PiecesAreCells | gc_src/ms.c:122-135 | allocated pieces of all blocks and allocated cells correspond one to one, each cell leads to the body of the piece that stores its address, and the header names the block |
| MemSpaceModule.MemSpace.GetWrite | gc_src/ms.c:244-246 | the lock, and where the user's bytes start |
| MemSpaceModule.MemSpace.Write | gc_src/ms.c:244-246 | a value that the owner of a lock writes behind the header changes those bytes of that address alone |
| MemSpaceModule.CountsAdd | gc_src/ms.c:342-348 | where pieces and cells match, their numbers do |

## Left out

- AddressBook.AddrBook.PutP: tables are held as values, not as objects; that the array code of a table does what its value function says is proved in `AddressTable`, aliasing between tables is not captured.
- AddressBook.AddrBook.TryGetWrite: one kind of lock; the sequential models do not tell read locks from write locks, and a blocking call requires the lock to be free.
- AddressBook.AddrBook.ForEach: lists the addresses first and lets the caller go through them, where the source calls a consumer under each cell's lock.
- AddressBook.AddrBook.MoveP: the part of adb_move_p that moves bytes is `MemBlock.MoveDown`, since the book does not own the memory.
- CollectorSafety.CollectionIsSafe: the lock on the progress flag, which keeps two cycles from running at once, is not a step; cycles follow one another.
- CollectorEarly.PreludeEstablishesStart: painting one object is one step, as the collector has its write lock; the pass comes to all objects that were there when it began, in any order, and the roots are pushed in any order.
- Collector.CollectedSpace.CollectGarbage: one thread, so that it requires that no lock is held, for which the source would wait; cycles beside mutators that hold locks are in `ConcurrentCollector`, on objects that are records at addresses.
- Collector.CollectedSpace.Malloc: has the size limit of `MemSpace.MallocP`, with the 20 bytes of the headers and 16 for each reference.
- MemSpaceModule.MemSpace.MallocP: requires min_bytes + 8 and the default block size to be at most 2^64 - 34; exactly beyond that (`HeaderFitsUnlessItWraps`, `FallbackFitsUnlessItWraps`) the source writes the header to a null pointer, or the piece it has found has no room for it and the request.
- MemSpaceModule.MemSpace.Filter: the locks that others hold stand for read locks, which do not stop the pass; where an accepted object is held for writing the source waits.
- AddressTable.AddrTable.Indices: lists the taken cells, where the source calls a consumer under each cell's lock.
- MemBlockModule.MemBlock.MallocP: one thread at a time; the block lock and the cell locks of the source only appear as the set of held addresses.
- Termination of marking beside mutators that keep allocating, progress of adb_put_p under contention, and deadlock between locks that users hold: the code does not guarantee them.
- cs_start_gc, cs_stop_gc, the worker thread and its timing; cs_count and cs_allocated.
- Freeing whole blocks, books, collections and spaces; new_mem_block_arr; adt_get_fill and adb_get_fill.
- Lists and array lists of util_src/data.c, which the collector does not use.
- Printing, logging, processes, signals and the pthread wrappers; error exits are preconditions.
- C alignment and pointer representation: a pointer into a block is an offset, and a pointer to a block is its index in the list.
