# KVM: collectors, stacks, class initialization and dispatch

A Dafny model of the parts of the K Virtual Machine (Java 2 Micro Edition, CLDC) whose correctness is hard to see: the two
garbage collectors, the chunked execution stack with exception unwinding, lazy class initialization among threads, the inline
cache that patches bytecodes, subtype checks, the builder of multi-dimensional arrays, and the coding of method signatures.
`dafny verify dfyconfig.toml` verifies everything.

Memory is an array of 32-bit cells; positions are cell indices, pointers are byte addresses in cells, NULL is 0. Objects,
headers, the break table, weak lists and forwarding addresses lie in these cells as they do in the program.

## How the project is built

- The mark-compact collector: `Cells`, `SlideObject`, `FreeList`, `BreakTable`, `BreakTableSort`, `Compaction` (compaction and
  its table, which lives in the gaps being closed), `Objects`, `HeapShape`, `DeferredObjects`, `Marking`, `Reachability`,
  `Roots`, `Tracing` (marking), `WeakPointers`, `Clearing` (weak phases), `Sweeping`, `Relocation`, `HeapUpdate`, `Sliding`,
  `Survivors`, `Outcomes`, `Collecting`, `Preservation`, `Isomorphism`, `RootsAfter`, `CollectionTheorems` (the collection as a
  whole), `Allocation`, `HeapObjects`, `Malloc`, `ObjectInitialization` (allocation).
- `PointerCells` says which cells hold pointers, from the fields of classes and superclasses and the layout of each type;
  `FollowedCells` and `FollowedCopies` say in these terms what a collection of either kind does to fields and roots, and
  `InheritedFields` is a heap in which all depends on an inherited field.
- The copying collector: `TwoSpaces`, `CheneyCopying`, `CheneyScanning`, `CheneyTraversal`, `CheneyRoots`, `CheneyWeak`,
  `CheneyWeakLists`, `CheneyReachability`, `CheneyOutcome`, `CheneyCollection`, `CheneyAfter`, `CheneyNext`, `CheneyClearing`,
  `CopyingHeap`, `CopyingObjectInitialization`; `CollectorsAgree` and `LockedObjects` compare it with the other one, and
  `LockOwners` says what the other one does to locks whose threads have ended.
- `WeakOutsideHeap`, `WeakReferenceFields`, `WeakReferenceClasses`: what goes wrong with weak references, and exactly when.
- Class initialization: `ClassInitialization` (the protocol as a state machine), `ClassInitializationSafety`,
  `ClassReadiness`, `SuperclassFirst`, `SuperclassFailure` (its properties), `ClassInitializer` (the program); with monitors
  and their queues: `ClassMonitors`, `MonitorOrder`, `ClassWakeups`, `ClassWakeupSafety`, `MonitorBalance`,
  `Forgotten`, `ForgottenRuns`.
- Dispatch: `ClassTables`, `DynamicDispatch`, `InlineCaching`, `CallSites`.
- Stacks: `ExecutionStacks`, `FrameStack`, `StackRuns`, `Unwinding`.
- Types and arrays: `Assignability`, `ClassLoading`, `MultiArrays`; names, keys and signatures: `Signatures`,
  `ClassHashTable`, `NameTable`, `MethodSignatures`, `SignatureCoding`. `Options` is shared.

## Model

| member | source | states |
|---|---|---|
| Cells.Memmove | kvm/VmCommon/src/collector.c:1676-1711 | a block of cells arrives at its target whatever the overlap of the two ranges, and no other cell changes |
| SlideObject.SlideObject | kvm/VmCommon/src/collector.c:1622-1833 | the live group lies at its target cell for cell; the table lies behind it with the same entries, rotated if it was rolled; there is room for one more entry; nothing outside the range changes; the retry loop ends |
| SlideObject.SlideRound | kvm/VmCommon/src/collector.c:1665-1832 | one round of the loop: either the group is in place or a rest of at least two cells is left, directly behind the table, so that the next round starts as the first did |
| SlideObject.MoveToEnd | kvm/VmCommon/src/collector.c:1686-1700 | the table goes to the far end of the gap behind the object, then the object to its place; both are as they were |
| SlideObject.PassTable | kvm/VmCommon/src/collector.c:1716-1832 | with all free space between table and object: after a swap the rest of the object waits directly behind the table, otherwise the object is in place; the table is whole, and there is room for one more entry |
| SlideObject.RollTable | kvm/VmCommon/src/collector.c:1789-1832 | rolling object cells through the table, with the correction for an odd number of cells, keeps whole entries and their cyclic order |
| BreakTableSort.SortBreakTable | kvm/VmCommon/src/collector.c:1836-1859 | the first entries are a permutation of what they were, in ascending order; the others and all other memory stay |
| Compaction.CompactTheHeap | kvm/VmCommon/src/collector.c:1541-1619 | the cells from the bottom of the heap to the result are exactly the live groups, in address order, cell for cell; the table lies behind them and holds exactly one entry (old start, cells moved in bytes) for each group that moved, sorted |
| Compaction.MoveGroups | kvm/VmCommon/src/collector.c:1550-1600 | the loop over the free list: after each chunk the groups so far are in place and the table is a rotation of their entries |
| Relocation.UpdatePointer | kvm/VmCommon/src/collector.c:1862-1896 | an address in a group that has moved goes down by as much as the group, interior addresses included; all others stay |
| HeapUpdate.UpdateHeapObjects | kvm/VmCommon/src/collector.c:1153-1283 | exactly the pointer cells (PointerCells.PointerSlotsAre: inherited fields, items, locks and links) of the objects below the end are relocated, each once; every other cell is as it was |
| Roots.RootSet.UpdateRootObjects | kvm/VmCommon/src/collector.c:528-650 | every root leads to where its object has moved; a derived address keeps its distance to its base; tagged monitor pointers keep their tags |
| DeferredObjects.DeferredObjectTable.Put | kvm/VmCommon/src/collector.c:1443-1460 | the circular table is a queue; a full one drops the object and remembers that |
| DeferredObjects.DeferredObjectTable.Get | kvm/VmCommon/src/collector.c:1463-1481 | the object that has waited longest is taken |
| Roots.RootSet.MarkRootObjects | kvm/VmCommon/src/collector.c:402-523 | everything that a global, temporary or monitor root points to is marked |
| Marking.Marker.MarkChildren | kvm/VmCommon/src/collector.c:742-964 | with recursion limited to four levels and to addresses below the scan position, everything visited has its children (PointerCells.StrongSlotsAre: what its fields, inherited ones included, and items lead to, and its monitor) marked or waiting, nothing waits at the outermost level when it returns, and the work left never grows |
| Marking.Marker.MarkNonRootObjects | kvm/VmCommon/src/collector.c:675-701 | passes are repeated until none has overflowed; then every marked object has been visited; a pass that overflows has marked something new, so the loop ends |
| Tracing.MarkHeap | kvm/VmCommon/src/collector.c:355-370 | the marked set is exactly the set of objects that can be reached from the roots through fields, inherited ones included, items and monitors, and the two weak lists hold the reachable weak objects once each |
| Reachability.ReachableIsClosed | kvm/VmCommon/src/collector.c:742-964 | what can be reached in any number of steps contains the roots and everything its members lead to |
| Reachability.ReachableIsLeast | kvm/VmCommon/src/collector.c:742-964 | ... and is contained in every set that does |
| WeakPointers.MarkWeakPointerLists | kvm/VmCommon/src/collector.c:1066-1116 | exactly the pointers in front of whose object there is no marked header are cleared, and those of a list with a finalizer are finalized once each |
| WeakPointers.MarkWeakReferences | kvm/VmCommon/src/collector.c:1134-1148 | exactly the referents without a marked header are cleared |
| Clearing.TraceHeap | kvm/VmCommon/src/collector.c:355-372 | after marking and both weak phases nothing but marks, links and cleared weak pointers has changed; a weak pointer into the heap is cleared exactly if its object is unreachable, and finalized exactly once if cleared |
| Clearing.ClearedIfUnreached | kvm/VmCommon/src/collector.c:1066-1148 | a weak pointer becomes what it should exactly if it is NULL, leads into the heap, or happens to have an odd cell in front of its object outside the heap |
| WeakOutsideHeap.PermanentReferentIsCleared | kvm/VmCommon/src/collector.c:1134-1148 | a heap that is ready for a collection whose weak reference to a live object outside the heap is cleared |
| WeakReferenceFields.FieldOfWeakReferenceDangles | kvm/VmCommon/src/collector.c:1153-1283 | a heap that is ready for a collection in which a field of a live object will be rewritten although its object is not kept |
| WeakReferenceClasses.FieldsKeptIff | kvm/VmCommon/src/collector.c:742-964 | the marking collector keeps what the fields of live objects lead to, in every heap, exactly if the classes of its weak references have no pointer field besides the referent |
| Sweeping.SweepTheHeap | kvm/VmCommon/src/collector.c:1484-1536 | all marks are cleared, and the free list consists of the maximal runs of unmarked objects in address order, at least two cells each; the largest one is reported |
| Collecting.CompactHeap | kvm/VmCommon/src/collector.c:372-389 | compaction, rewriting of roots and heap, and the one free chunk at the end make a heap in which each survivor is where its pointers say |
| Collecting.GarbageCollectForReal | kvm/VmCommon/src/collector.c:355-390 | a whole collection: survivors in order, free chunks with all other cells, and either a chunk as large as requested or one chunk with everything; objects are moved exactly if no run of dead cells is larger than the request; FollowedCells tells what it does to each field and root |
| CollectionTheorems.CollectionIsCorrect | kvm/VmCommon/src/collector.c:355-390 | what is kept is exactly what can be reached, every pointer and every root leads to the same place in the moved object |
| CollectionTheorems.GraphPreserved | kvm/VmCommon/src/collector.c:355-390 | each reachable object has a copy of the same header, cell for cell, and the copy leads to exactly the copies of what the original led to |
| CollectionTheorems.OrderPreserved | kvm/VmCommon/src/collector.c:1541-1619 | survivors keep their order and do not overlap |
| CollectionTheorems.DerivedRootMoves | kvm/VmCommon/src/collector.c:538-552 | an address inside an object that is rooted with its base still points to the same place in that object |
| CollectionTheorems.ReadyAgain | kvm/VmCommon/src/collector.c:355-390 | the heap and the roots are ready for the next collection, and exactly the survivors can be reached |
| PointerCells.OffsetsAreFields | kvm/VmCommon/src/collector.c:845-857 | an offset is walked in the instances of a class exactly if the class or one of its superclasses has a non-static pointer field there |
| PointerCells.PointerSlotsAre | kvm/VmCommon/src/collector.c:1153-1283 | a cell of an object is rewritten exactly if it is a pointer field of its class or of a superclass, an item of an object array or pointer list, a lock in use, or a link of a thread or monitor |
| PointerCells.StrongSlotsAre | kvm/VmCommon/src/collector.c:742-964 | a cell is followed by marking exactly if it is such a field or item, and not of a weak object |
| PointerCells.ScanSlotsAre | kvm/VmCommon/src/collectorDebug.c:500-637 | a cell is followed by copying exactly if it is rewritten and not a reference of a weak object |
| FollowedCells.ReferenceFollowed | kvm/VmCommon/src/collector.c:355-390 | after a marking collection: what a field, inherited or not, or an item of a live object leads to is alive, and the cell of the moved object leads to where that has moved; other addresses stay |
| FollowedCells.MonitorFollowed | kvm/VmCommon/src/collector.c:1285-1305 | the same for the monitor of a live object |
| FollowedCells.GlobalFollowed | kvm/VmCommon/src/collector.c:528-537 | the same for what a global root holds |
| FollowedCells.TemporaryFollowed | kvm/VmCommon/src/collector.c:539-552 | the same for temporary roots and for the bases of derived addresses |
| FollowedCells.MonitorRootFollowed | kvm/VmCommon/src/collector.c:583-598 | the same for the monitors of classes and interned strings, whose tags stay |
| InheritedFields.InheritedFieldIsMarked | kvm/VmCommon/src/collector.c:845-857 | a heap that is ready for a collection whose only live instance has no field of its own: what its inherited field leads to is kept |
| Allocation.Heap.AllocateFreeChunk | kvm/VmCommon/src/collector.c:265-299 | the first chunk that is large enough is used, from its end; a leftover of one cell goes with the object; the rest of the list and of memory stays; failure means that no chunk is large enough |
| Allocation.Heap.MemoryFree | kvm/VmCommon/src/collector.c:1929-1938 | the sum of the free chunks in bytes |
| Malloc.MallocHeapObject | kvm/VmCommon/src/collector.c:214-263 | NULL exactly if the cells that no reachable object holds, taken together, are fewer than the request with its header; otherwise a new object from the first chunk that fits, which holds the cells asked for and at most one more; it collects exactly if no free chunk is large enough |
| HeapObjects.DeadRest | kvm/VmCommon/src/collector.c:1929-1938 | an allocation lowers the amount of free memory by exactly the cells given away |
| HeapObjects.ReadyAfterAllocation | kvm/VmCommon/src/collector.c:214-263 | an object without pointers can be allocated without any initialization and the heap stays ready for a collection |
| ObjectInitialization.ReadyAfterFilling | kvm/VmCommon/src/garbage.c:181-192 | an object of any type can be allocated, and the heap is ready for a collection once its pointers are NULL |
| ObjectInitialization.CreateObject | kvm/VmCommon/src/garbage.c:181-192 | allocation with zero fill: NULL exactly if there is too little unreached space; in every case the heap stays valid and ready, so that any sequence of allocations and collections can go on |
| ObjectInitialization.Instantiate | kvm/VmCommon/src/class.c:998-1011 | a new instance has its class and only zero fields, and the heap stays ready |
| ObjectInitialization.InstantiateArray | kvm/VmCommon/src/class.c:1270-1299 | the exception for a negative length; a request for as few cells as hold the items behind the first three; exhaustion exactly if the length is beyond the limit or the unreached cells do not suffice for it; else an array of zeroes of that length whose items lie inside the object; the heap stays ready |
| CheneyCopying.Copier.UpdatePointer | kvm/VmCommon/src/collectorDebug.c:849-877 | a pointer into the space in use is replaced with the address of the copy, which is made if there is none yet; others stay |
| CheneyRoots.CopyRootObjects | kvm/VmCommon/src/collectorDebug.c:370-497 | all global and temporary roots and the monitors of classes and strings are forwarded, each once, derived addresses with their bases, tags kept |
| CheneyTraversal.CopyNonRootObjects | kvm/VmCommon/src/collectorDebug.c:500-637 | the scan ends; every pointer of every copy (PointerCells.ScanSlotsAre: inherited fields, items, locks and links) has been followed; the two lists have each copied weak object once |
| CheneyWeakLists.CopyWeakPointerLists | kvm/VmCommon/src/collectorDebug.c:640-692 | the walk along the list updates or clears exactly the weak pointers of its members |
| CheneyWeakLists.CopyWeakReferences | kvm/VmCommon/src/collectorDebug.c:710-730 | the walk along the list updates or clears exactly the referents of its members |
| CheneyReachability.KeptIsLeast | kvm/VmCommon/src/collectorDebug.c:500-637 | what can be reached through scanned pointers is the least closed set with the roots |
| CheneyCollection.Evacuate | kvm/VmCommon/src/collectorDebug.c:280-305 | exactly what can be reached from the roots is copied, once each, one behind the other; each cell of each copy is a forwarded pointer, an updated weak pointer, or as in the original; the free pointer stays within what was in use before |
| CheneyAfter.CopiesTile | kvm/VmCommon/src/collectorDebug.c:849-877 | the copies fill the target space without a gap |
| CheneyAfter.GraphPreserved | kvm/VmCommon/src/collectorDebug.c:280-315 | a copy leads to exactly the copies of what the original led to |
| CheneyNext.EverythingIsReachable | kvm/VmCommon/src/collectorDebug.c:280-315 | after a collection everything in the heap can be reached: a second collection would keep it all |
| CheneyNext.ReadyAgain | kvm/VmCommon/src/collectorDebug.c:280-315 | the next collection can start exactly if each stray pointer of a kept weak list is replaced with NULL, the address of a copy, or one outside all spaces; without stray pointers it always can |
| FollowedCopies.ReferenceCopied | kvm/VmCommon/src/collectorDebug.c:500-637 | after a copying collection: what a field, inherited or not, or an item of a copied object leads to is copied, and the cell of the copy leads to that copy; so it is with the links of threads and monitors |
| FollowedCopies.LockCopied | kvm/VmCommon/src/collectorDebug.c:880-892 | the same for the monitor or the thread that a lock leads to; the tag stays |
| FollowedCopies.GlobalCopied | kvm/VmCommon/src/collectorDebug.c:370-379 | the same for global roots |
| FollowedCopies.TemporaryCopied | kvm/VmCommon/src/collectorDebug.c:381-394 | the same for temporary roots; a derived address keeps its distance to its base |
| FollowedCopies.MonitorRootCopied | kvm/VmCommon/src/collectorDebug.c:428-496 | the same for the monitors of classes and interned strings |
| InheritedFields.InheritedFieldIsCopied | kvm/VmCommon/src/collectorDebug.c:515-529 | the heap whose only live pointer is in an inherited field, for the copying collector |
| CheneyClearing.ClearedIff | kvm/VmCommon/src/collectorDebug.c:640-730 | exactly when a weak pointer is NULL after a collection |
| CheneyClearing.RightIff | kvm/VmCommon/src/collectorDebug.c:640-730 | exactly when a weak pointer becomes what it should |
| WeakOutsideHeap.PermanentReferentIsClearedByCopying | kvm/VmCommon/src/collectorDebug.c:710-730 | a heap ready for a collection whose weak reference to a live object outside the space is cleared |
| WeakOutsideHeap.PermanentListPointerIsReplaced | kvm/VmCommon/src/collectorDebug.c:640-692 | a heap ready for a collection whose weak list gets a piece of foreign memory for a pointer, which is none of the harmless replacements |
| WeakReferenceClasses.FieldsFollowedIff | kvm/VmCommon/src/collectorDebug.c:500-637 | the copying collector follows all pointer fields of the objects it keeps, in every heap, exactly if the classes of its weak references have no pointer field besides the referent |
| CopyingHeap.Heap.GarbageCollectForReal | kvm/VmCommon/src/collectorDebug.c:280-315 | the next space of the ring holds the copies and is the one in use; it holds exactly as many cells as reachable objects had |
| CopyingHeap.Heap.MallocHeapObject | kvm/VmCommon/src/collectorDebug.c:191-236 | NULL exactly if there was too little space and the reachable objects leave too little as well; otherwise the next free cells with the header of the request, and nothing else changed |
| CopyingObjectInitialization.ReadyAfterGrowth | kvm/VmCommon/src/collectorDebug.c:191-236 | with a new object that has no pointers the next collection can start |
| CopyingObjectInitialization.CreateObject | kvm/VmCommon/src/garbage.c:181-192 | allocation with zero fill over the copying collector: NULL exactly if the reachable objects leave too little space; otherwise the object is behind all others, zero but for class and length; the heap is ready again, so that any sequence of allocations and collections can go on |
| CollectorsAgree.KeepsWhatIsMarked | kvm/VmCommon/src/collectorDebug.c:500-637 | the copying collector keeps everything that the marking collector keeps |
| CollectorsAgree.KeepTheSame | kvm/VmCommon/src/collectorDebug.c:500-637 | in every heap both keep the same exactly if what the threads, monitors and locked objects that marking keeps point to is kept as well |
| CollectorsAgree.SameSurvivors | kvm/VmCommon/src/collectorDebug.c:370-497 | the same with roots, whose locked classes and strings have to be looked at as well |
| LockedObjects.RootedThreadAgrees | kvm/VmCommon/src/collectorDebug.c:880-892 | a heap with a thread and an object it has locked for which both collectors agree |
| LockedObjects.UnrootedThreadDiffers | kvm/VmCommon/src/collectorDebug.c:880-892 | the same heap after the thread has ended without giving the lock back: copying keeps the thread, marking does not |
| LockOwners.LockFollowsOwnerIff | kvm/VmCommon/src/collector.c:1285-1305 | the marking collector keeps the tag of a lock, and the lock leads to the new place of its thread exactly if the thread could be reached |
| LockOwners.LocksFollowIff | kvm/VmCommon/src/collector.c:1285-1305 | after a collection all locks lead to their threads exactly if all threads that had locked live objects were alive |
| LockOwners.OwnerIsLost | kvm/VmCommon/src/thread.c:297-330 | a heap ready for a collection with a live object whose lock leads to a thread that has ended and will not be kept |
| ClassInitializer.Machine.InitializeClass | kvm/VmCommon/src/class.c:98-129 | the step function of the protocol, in place; without exception and without a new frame the class is ready, and a class with a <clinit> never becomes ready here |
| ClassInitializer.Machine.RunClinit | kvm/VmCommon/src/class.c:144-325 | the switch with its cases that fall through is the step function, for any state of the class monitor |
| ClassInitializer.Machine.Do | kvm/VmCommon/src/class.c:98-411 | any event of any thread takes the machine to the state that the protocol says; a class with a <clinit> that becomes ready has run it to its end, and a class that becomes ready does not have to wait for its superclass |
| ClassInitializationSafety.InitializedOnce | kvm/VmCommon/src/class.c:144-325 | in every interleaving each <clinit> is started at most once, at most one call in all threads is past the marking of a class and belongs to its initializing thread, and no exception meets a call that waits for a monitor |
| ClassInitializationSafety.StartsAreGood | kvm/VmCommon/src/class.c:196-268 | when a <clinit> starts, its class is marked by the thread and its superclass is ready, in error, or being initialized by the same thread, never still owned by another one |
| ClassReadiness.ReadyAfterClinit | kvm/VmCommon/src/class.c:98-325 | whatever event makes a class with a <clinit> ready: the <clinit> has been started, and no thread is in it any more |
| ClassReadiness.ReadyMeansInitialized | kvm/VmCommon/src/class.c:98-325 | after every run from the very start, each class with a <clinit> that has become ready has run it, to its end |
| ClassReadiness.TouchDecides | kvm/VmCommon/src/class.c:98-129 | a thread that uses a class finds it ready, starts its initialization, or is thrown an exception, which happens only if the class is in error or cannot be verified |
| ClassReadiness.CallDecides | kvm/VmCommon/src/class.c:196-325 | however a call of runClinit ends, its class is ready, in error, or being initialized by the same thread |
| ClassReadiness.ExceptionFails | kvm/VmCommon/src/class.c:328-411 | an exception leaves each class in error, and unmarked, whose initialization it ends, and takes exactly the frames above the one that catches it |
| ClassReadiness.WaitingChangesNothing | kvm/VmCommon/src/class.c:163-194 | a thread that has to wait for the monitor or for an initialization by another one changes nothing but the step from which it will go on |
| SuperclassFirst.ReadyAfterSuper | kvm/VmCommon/src/class.c:107-325 | whatever event makes a class ready: its superclass is ready, in error, or being initialized by the same thread |
| SuperclassFirst.AlwaysReadyAfterSuper | kvm/VmCommon/src/class.c:107-325 | the same for each event of each run from the very start |
| SuperclassFailure.WrongStarts | kvm/VmCommon/src/class.c:245-268 | a <clinit> is started although the superclass has failed exactly if a thread goes on behind the initialization of a superclass that is in error and not its own |
| SuperclassFailure.RunMeetsSpecification | kvm/VmCommon/src/class.c:144-325 | a run from the very start starts no <clinit> wrongly exactly if no thread ever goes on in that way |
| SuperclassFailure.StartedAfterFailure | kvm/VmCommon/src/class.c:245-268 | a run from the very start in which a subclass is initialized after its superclass has failed |
| ClassMonitors.MonitorObject.MonitorEnter | kvm/VmCommon/src/thread.c:1605-1726 | a free or own monitor is entered; otherwise the thread is the last one in the queue |
| ClassMonitors.MonitorObject.MonitorExit | kvm/VmCommon/src/thread.c:1740-1839 | the last exit makes the thread that has waited longest the owner, with its own depth |
| ClassMonitors.MonitorObject.MonitorWait | kvm/VmCommon/src/thread.c:1852-1882 | the owner is queued with its depth, and the monitor is passed on |
| ClassMonitors.MonitorObject.MonitorNotify | kvm/VmCommon/src/thread.c:1910-1948 | the loop moves the first or all of those that wait for a notification to the queue for the monitor |
| ClassMonitors.WakeAllFacts | kvm/VmCommon/src/class.c:398-407 | after enter, notify and exit nobody waits for a notification: each one waits for the monitor, but for the one that has it |
| MonitorOrder.EnterInOrder | kvm/VmCommon/src/thread.c:1605-1726 | a thread that has to wait is behind all that wait already, and nothing changes for these |
| MonitorOrder.ExitInOrder | kvm/VmCommon/src/thread.c:1376-1405 | of two threads that wait the first gets the monitor before the second, each with the depth that it had |
| MonitorOrder.EnterThenExit | kvm/VmCommon/src/thread.c:1740-1839 | leaving a monitor undoes entering it |
| MonitorOrder.WaitInOrder | kvm/VmCommon/src/thread.c:1852-1882 | the owner that waits is behind all that wait for a notification, and overtakes nobody |
| MonitorOrder.WaitKeepsDepth | kvm/VmCommon/src/thread.c:1413-1435 | a thread that waits will have its depth again |
| MonitorOrder.NotifyInOrder | kvm/VmCommon/src/thread.c:1445-1470 | threads are notified in the order in which they have begun to wait, and are behind all that wait for the monitor already |
| MonitorOrder.NotifyReaches | kvm/VmCommon/src/thread.c:1445-1470 | a notification reaches exactly the thread that has waited longest, or all |
| MonitorOrder.InterruptInOrder | kvm/VmCommon/src/thread.c:611-632 | an interrupted thread keeps its depth and overtakes nobody that waits for the monitor |
| ClassWakeups.AfterRefinesNext | kvm/VmCommon/src/class.c:144-411 | initialization with real monitors and queues is the protocol above with the locks that the monitors tell |
| ClassWakeupSafety.AfterKeeps | kvm/VmCommon/src/class.c:144-411 | in every interleaving, with programs that use the class monitors as well: no thread is queued twice; a thread that goes on with step 2 or 6 is the owner; queued threads stand at these steps |
| MonitorBalance.GivesBack | kvm/VmCommon/src/class.c:144-325 | each step of class initialization gives back the class monitor as deep as it has found it, unless the call goes on later from step 2 or 6; then it has entered it once more |
| Forgotten.ForgetsIff | kvm/VmCommon/src/class.c:328-411 | an action leaves a thread waiting for an initialization that is over exactly if it fails an initialization whose class monitor another thread has at that moment, while somebody waits |
| ForgottenRuns.NobodyIsForgottenIff | kvm/VmCommon/src/class.c:144-411 | the same for whole runs from the very start |
| ForgottenRuns.WaitsForAnother | kvm/VmCommon/src/class.c:180-194 | whoever waits for an initialization waits for another thread, one of whose calls is past the marking of the class |
| ForgottenRuns.OneIsForgotten | kvm/VmCommon/src/class.c:398-407 | a run from the very start in which a thread waits in vain |
| ForgottenRuns.FatalIff | kvm/VmCommon/src/class.c:336-343 | the machine gives up exactly when a thread goes on that was interrupted while it waited for an initialization |
| ForgottenRuns.InterruptStopsMachine | kvm/VmCommon/src/thread.c:611-632 | a run from the very start in which that happens |
| InlineCaching.InlineCache.CreateInlineCacheEntry | kvm/VmCommon/src/cache.c:145-172 | the next entry is used, after its old instruction has been put back if the cache was full |
| InlineCaching.InlineCache.Install | kvm/VmCommon/src/bytecodes.c:2276-2281 | the site holds the fast instruction with the index of its own entry; live entries name distinct sites; putting back what was saved gives the original code |
| InlineCaching.InlineCache.ReleaseInlineCacheEntry | kvm/VmCommon/src/cache.c:111-130 | the three bytes of the instruction are as before, and the other entries stay in use |
| InlineCaching.InlineCache.FinalizeInlineCaching | kvm/VmCommon/src/cache.c:84-92 | the code is the original code, byte for byte, however often the cache has wrapped around |
| InlineCaching.FastSitesAreTheRecentOnes | kvm/VmCommon/src/cache.c:145-172 | the fast instructions are exactly those of the last 128 installations, all different |
| ClassTables.FindMethod | kvm/VmCommon/src/fields.c:77-119 | the loops find a method exactly if the class, a superclass, or for an interface one that it extends, has an accessible one with the key; it is that of the lowest class, and without one that of the first interface that leads to one |
| ClassTables.FoundOnce | kvm/VmCommon/src/fields.c:77-119 | there is at most one such method |
| ClassTables.FoundIsAccessible | kvm/VmCommon/src/fields.c:86-97 | a private method is found only for code of its class, one without modifier only for code of its package |
| ClassTables.ArraysHaveObjectMethods | kvm/VmCommon/src/fields.c:77-82 | for an array class the result is that for java.lang.Object |
| ClassTables.FindPublicDeclaration | kvm/VmCommon/src/fields.c:125-146 | a public declaration is found exactly if the class or a superclass in the package has one |
| ClassTables.FindDynamicMethod | kvm/VmCommon/src/fields.c:163-213 | the loops with their single search for a public declaration find a method exactly if the class or a superclass has one that overrides the declared method, and then that of the lowest class; a private method is called itself |
| ClassTables.DispatchedOnce | kvm/VmCommon/src/fields.c:163-213 | there is at most one such method |
| DynamicDispatch.InterfaceHit | kvm/VmCommon/src/bytecodes.c:3171-3226 | a cached interface method is found again for receivers of its class |
| DynamicDispatch.CachedMethodAgrees | kvm/VmCommon/src/bytecodes.c:3071-3127 | in a stable hierarchy the lookup that starts from a cached method agrees with one from the declared method |
| DynamicDispatch.CachingIsSafeIffStable | kvm/VmCommon/src/bytecodes.c:3071-3127 | for every well-formed hierarchy that never weakens access: caching never changes the method called exactly if no package-private method is widened next to an unrelated one of another package |
| DynamicDispatch.CachedLookupStrays | kvm/VmCommon/src/bytecodes.c:3071-3127 | in a hierarchy that is not stable a cached call executes the unrelated method |
| DynamicDispatch.FourClassesAreUnstable | kvm/VmCommon/src/bytecodes.c:3071-3127 | four classes for which that happens |
| DynamicDispatch.SpecialIsVirtual | kvm/VmCommon/src/bytecodes.c:2267-2272 | a call of a final method that is replaced with a direct call reaches the method that dispatch would |
| CallSites.Interpreter.Execute | kvm/VmCommon/src/bytecodes.c:2229-2298 | whatever has been executed before at any site, an instruction has the outcome of an interpreter without cache: an interface call calls the method that is to be found if it is a public instance method, a virtual call the one that is dispatched to |
| CallSites.InheritedMethodIsCalled | kvm/VmCommon/src/bytecodes.c:2409-2456 | an interface call of a method that the class of the receiver has or inherits as a public one calls it |
| FrameStack.ThreadStack.PushFrame | kvm/VmCommon/src/frame.c:166-294 | a call adds one frame with the arguments as first locals, in this chunk, in the next one, or in a new one; the frame with its largest operand stack and the reserve fits its chunk; no live frame is touched; without heap space nothing happens |
| FrameStack.ThreadStack.PopFrame | kvm/VmCommon/h/frame.h:154-159 | the caller has its registers, its locals and its operands without the arguments |
| StackRuns.RunKeepsCallers | kvm/VmCommon/src/frame.c:166-294 | frames below the top are not changed by any sequence of steps above them |
| StackRuns.ReturnRestoresCaller | kvm/VmCommon/src/frame.c:166-294 | a call, any steps of the method and of what it calls, and its return are together nothing but the removal of the arguments |
| Unwinding.FindHandler | kvm/VmCommon/src/frame.c:358-391 | the first entry in table order that covers the offset and accepts the class |
| Unwinding.Thrower.ThrowException | kvm/VmCommon/src/frame.c:419-557 | control goes to the innermost frame that catches, each frame left has its monitor exit attempted exactly once, an error of that attempt takes the place of the exception, and the loop ends; Unwinding.HandlerOfCallCatches and Unwinding.LastReplacementArrives tell which handler and which exception |
| Unwinding.InnermostHandlerCatches | kvm/VmCommon/src/frame.c:419-557 | undisturbed, an exception is caught exactly if some frame handles it, and then by the innermost one |
| Unwinding.CoversInstruction | kvm/VmCommon/src/frame.c:476-556 | a range of a handler table that does not start or end inside an instruction covers the offset that is looked up exactly if it covers the instruction, be it that which throws, a call, or a call of a native method; below custom code the offset is that of the address itself |
| Unwinding.HandlerOfCallCatches | kvm/VmCommon/src/frame.c:419-557 | undisturbed, an exception is caught exactly if some frame has an entry for the instruction at which it stands; the innermost such frame goes on with the handler of its first such entry |
| Unwinding.LastReplacementArrives | kvm/VmCommon/src/frame.c:518-556 | a frame is reached with the exception that was put in place last, by a failed monitor exit or by a callback |
| Unwinding.SynchronizedAre | kvm/VmCommon/src/frame.c:539-557 | monitors are left in exactly those frames that have one |
| Unwinding.SynchronizedDescend | kvm/VmCommon/src/frame.c:539-557 | ... from the top down, each once |
| Assignability.SubtypeIsLeast | kvm/VmCommon/src/class.c:1107-1187 | subtyping is the least relation that obeys the rules for classes, interfaces and arrays of any depth |
| Assignability.SubtypeObeysRules | kvm/VmCommon/src/class.c:1107-1187 | ... and obeys them |
| Assignability.AssignableIffSubtype | kvm/VmCommon/src/class.c:1107-1187 | the decision procedure decides subtyping |
| Assignability.AssignableTransitive | kvm/VmCommon/src/class.c:1107-1187 | assignments compose |
| ClassLoading.ClassLoader.ImplementsInterface | kvm/VmCommon/src/class.c:1061-1091 | the loop and its recursion decide whether the class or a superclass lists the interface or one that extends it |
| ClassLoading.ClassLoader.IsAssignableTo | kvm/VmCommon/src/class.c:1107-1187 | with classes loaded on the way, the result is subtyping |
| ClassLoading.ClassLoader.IsAssignableToFast | kvm/VmCommon/src/class.c:1203-1224 | TRUE only for subtypes, and exact between loaded classes that are no interfaces |
| MultiArrays.ArrayHeap.InstantiateMultiArray | kvm/VmCommon/src/class.c:1312-1402 | the result has the given lengths at every level and nothing below a zero length, no array is shared, no temporary link survives, and the arrays that were there are unchanged; NULL for a negative length or when space runs out |
| MultiArrays.LevelsAreForest | kvm/VmCommon/src/class.c:1336-1396 | the arrays of all levels form a forest: each is referred to from one slot only, by an older array |
| Signatures.SplitNamePrints | kvm/VmCommon/src/class.c:581-627 | a class name that has been split into package and base, behind its last slash, is printed as it was |
| Signatures.SplitAtLastSlash | kvm/VmCommon/src/class.c:581-627 | the base has no slash, and there is a package exactly if the name has one |
| Signatures.ArrayNamePrints | kvm/VmCommon/src/class.c:889-929 | an array class is printed as its signature |
| Signatures.FieldKeyRoundTrip | kvm/VmCommon/src/fields.c:477-498 | the key of a type is printed as the signature of the type |
| Signatures.KeysDiffer | kvm/VmCommon/src/fields.c:601-638 | no two classes, arrays of any depth included, have the same key |
| ClassHashTable.HashTable.ChangeNameToClass | kvm/VmCommon/src/hashtable.c:499-550 | a class is found, or gets a key that no class of the table has; the machine stops only when the bucket has no more keys |
| ClassHashTable.HashTable.GetArrayClass | kvm/VmCommon/src/class.c:704-827 | the array class and those of all smaller depths are there with their final keys, whatever existed before; no class loses or changes its key |
| ClassHashTable.HashTable.ChangeKeyToClass | kvm/VmCommon/src/hashtable.c:553-578 | the class whose key it is, for arrays of any depth; a class that comes out has the key |
| NameTable.UTFStringTable.ChangeNameToKey | kvm/VmCommon/src/hashtable.c:173-235 | strings keep their keys; the machine stops exactly if a new key would not fit into 16 bits |
| NameTable.UTFStringTable.ChangeKeyToName | kvm/VmCommon/src/hashtable.c:469-485 | the inverse |
| NameTable.KeysDiffer | kvm/VmCommon/src/hashtable.c:173-235 | a key stands for one string |
| SignatureCoding.FieldSignatureToKey | kvm/VmCommon/src/fields.c:640-680 | the key of a signature, with the depth in its upper bits up to the limit and array classes beyond; the classes that it needs are named on the way, and no key changes |
| SignatureCoding.EncodeSignature | kvm/VmCommon/src/fields.c:723-814 | the encoding of a method signature, over a table that grows meanwhile; text behind the result type is an error; the machine stops only when it is out of keys or meets an unknown code |
| SignatureCoding.DecodeSignature | kvm/VmCommon/src/fields.c:539-596 | what is printed for the encoding of any signature: the signature exactly if it has at most 255 arguments |
| SignatureCoding.MethodSignatureToKey | kvm/VmCommon/src/fields.c:723-762 | the key of a method signature; all keys given before stay |
| SignatureCoding.KeyToMethodSignature | kvm/VmCommon/src/fields.c:539-596 | the key of a signature is printed as the signature exactly if it has at most 255 arguments, whatever classes and names have been added since |
| SignatureCoding.SignatureKeysDiffer | kvm/VmCommon/src/fields.c:723-762 | a key stands for one method signature |
| MethodSignatures.SurvivesIff | kvm/VmCommon/src/fields.c:539-596 | a signature is printed as it was encoded exactly if it has at most 255 arguments |
| MethodSignatures.EncodingInjective | kvm/VmCommon/src/fields.c:723-814 | different signatures have different encodings, whatever their numbers of arguments |
| MethodSignatures.SurvivesLater | kvm/VmCommon/src/fields.c:723-814 | the encoding of a signature does not depend on classes that are named later, and can still be printed |
| MethodSignatures.TooManyArguments | kvm/VmCommon/src/fields.c:539-596 | 256 arguments of type int are printed as none, and the first of them as the result |

## Findings

Properties that one would expect and that do not hold, each with an input and the exact condition under which they do hold:

- Weak references to objects outside the heap: cleared although the object is alive (`WeakOutsideHeap.PermanentReferentIsCleared`,
  `WeakOutsideHeap.PermanentReferentIsClearedByCopying`); exact conditions in `Clearing.ClearedIfUnreached` and
  `CheneyClearing.RightIff`.
- Weak lists of the copying collector with pointers out of the space: the cell in front of the target is taken for a forwarding
  address (`WeakOutsideHeap.PermanentListPointerIsReplaced`); exact conditions in `CheneyClearing.ClearedIff` and
  `CheneyNext.ReadyAgain`.
- Pointer fields that a subclass adds to a weak reference are followed by neither collector
  (`WeakReferenceFields.FieldOfWeakReferenceDangles`); exact conditions in `WeakReferenceClasses.FieldsKeptIff` and
  `WeakReferenceClasses.FieldsFollowedIff`.
- An object that is still locked by a thread that has ended (MONITORENTER without MONITOREXIT) keeps an address that the
  marking collector rewrites without having kept the thread (`LockOwners.OwnerIsLost`); exact condition in
  `LockOwners.LocksFollowIff`. The copying collector keeps such threads.
- The two collectors do not always keep the same objects (`LockedObjects.UnrootedThreadDiffers`); exact condition in
  `CollectorsAgree.KeepTheSame`.
- A class may be initialized although its superclass has failed (`SuperclassFailure.StartedAfterFailure`), which step 7 of
  section 2.17.5 of the Java Virtual Machine Specification, second edition, rules out; exact condition in
  `SuperclassFailure.WrongStarts`.
- A thread that waits for an initialization by another thread is forgotten if that initialization fails while a third
  thread has the monitor of the class (`ForgottenRuns.OneIsForgotten`); exact conditions in `Forgotten.ForgetsIff` and
  `ForgottenRuns.NobodyIsForgottenIff`.
- Interrupting a thread that waits for an initialization stops the virtual machine
  (`ForgottenRuns.InterruptStopsMachine`); exact condition in `ForgottenRuns.FatalIff`.
- A cached virtual call may execute an unrelated package-private method of another package
  (`DynamicDispatch.FourClassesAreUnstable`); exact condition in `DynamicDispatch.CachingIsSafeIffStable`.
- Method signatures with more than 255 arguments are not printed as they were (`MethodSignatures.TooManyArguments`);
  exact condition in `MethodSignatures.SurvivesIff`.

## Left out

- Thread stacks as roots: updateThreadAndStack, markThreadStack and the stack maps; the live slots of stacks, the threads, static fields and initializing threads of classes are among the given global roots, and stack chunks do not move while a thread runs.
- Method tables as heap objects (GCT_METHODTABLE), and moving or growing the permanent space: the end of the heap is fixed.
- Build variants: ROM images, static data, chunked heaps, asynchronous natives, the debugger, profiling, tracing, and the mode that collects before every allocation.
- Finalizers do not touch the heap; the calls of the marking collector are logged, those of the copying collector are not.
- Turning an instance into a weak reference after its creation (the header is rewritten by a native method).
- The bootstrap state 1 of the first classes and a stack overflow inside initializeClass. ClassInitialization itself knows of a monitor only how a thread finds it; the monitors are in ClassWakeups.
- Simple and extended locks are monitors without queues here; hash codes, timeouts of waits, and interrupts of threads that do not wait for a notification of a class are not modelled. Which monitors an exception gives back is an input.
- Exceptions are unwound over frames as values, not over the cells of stack chunks; the monitor of a frame is attempted or not.
- Call sites have their receiver given; operand stacks and argument counts are those of the frame model. The hierarchy of classes is fixed while call sites run.
- Instructions that are replaced for good without a cache entry change what counts as the original code.
- Malformed signatures and class names: the coder is given text of a type; only text behind a signature is rejected.
- Hash functions are arbitrary functions; strings are compared by contents, as getUString makes it possible; the table of interned strings is not modelled. In ClassTables and Assignability classes are numbers.
- WeakReferenceClasses.FieldsKeptIff: the pointers inside of threads and monitors are excepted, which the marking collector does not follow, and so are the addresses of threads in locked objects, which LockOwners.LocksFollowIff is about.
- HTTP, files, manifests and events, the verifier and the loader's parsing, native methods and floating point.
