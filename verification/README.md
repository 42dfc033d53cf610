# A verified model of BRACELET

BRACELET compiles programs so that they carry a graph of their pointer flow, records what they load and
allocate while they run, and then decides from both whether a vulnerable function can be reached. This
project models the parts that keep hard state or carry a translation, and proves what the rest relies on.
`dafny verify dfyconfig.toml` checks all of it.

- **The trace runtime's edge set** (`EdgeHashSet`). An open-addressing table in a file doubles in place. One
  bit of every slot tells old from new, and edges in the way are evicted through the slot being emptied. The
  class refines a mathematical set over runs with any number of doublings. Running out of the 1024 probes is
  an abort, and a run aborts exactly when there is an edge for which that is so, or an odd edge.
- **The `dlsym` page list** (`DlsymPages`, `DlsymRuns`, `DlsymProgress`). Any number of threads insert by
  fetch-and-add and compare-and-exchange. A step is one atomic access, and the results hold for every interleaving.
- **The facts** (`EdgeFacts`). The pages of a core dump and the edges of every function become the input
  tables of the analysis, which are exactly the relations that the rules below range over. A symbol whose
  insertion was complete when the dump was taken is always among the facts.
- **The simple reachability rules** (`SimpleRules`, `Justifications`, `PointerMachine`, `PointerExample`,
  `DirectCalls`). The datalog rules are a least fixed point. Whatever they derive has reasons in the edges, so that
  the answer "not reachable" can be checked. A pointer machine runs the edges, including indirect calls, thread
  starts and initialised globals, and the rules are sound for it, and exact where all calls are direct.
- **The allocator of the tracer** (`FreeSlots`, `SlabArithmetic`, `PageTables`, `SlabPools`, `VhMalloc`,
  `VhMallocRuns`). Two intrusive lists per pool, nested counts, a random choice of slot and a two-level page table
  refine a map from disjoint address ranges to tags, over runs of any requests from any threads. What a lookup
  finds follows from the earlier requests and their answers alone.
- **The edge metadata** (`EdgeEncoding`, `EdgeStream`, `StringTable`, `EdgeWriter`, `EdgeReader`,
  `EdgeRoundTrip`, `EdgeFiles`, `GraphSection`). Writer and reader are classes. Any list of functions that is
  written comes back with the same names and edges, with globals replaced by their addresses, and sections are
  split where they were joined.
- **The cache of loaded segments** (`ElfSegments`, `ElfQueries`). Queries, `dlopen` and rescans run in any interleaving.
- **The node states of the points-to pass** (`NodeStates`) and **the shared structures** (`RuntimeFormat`,
  `RuntimeValues`, `RuntimePacking`): a lattice whose result does not depend on order, and layouts with packing
  in place.

`Sequences`, `LittleEndian` and `MachineWords` hold what several of these use.

## What the code does not do

Five properties that one might expect do not hold. For each of them the project gives the exact condition, and
mostly a concrete input or run as well.

- A null edge (trace site 0) spoils the edge set: `AddEdge` counts it without storing it, or stores it as a
  present null edge in the odd epoch. The table is valid afterwards exactly if the edge was not null.
- The repository's own README.md promises a sound callgraph (line 49). A symbol that a function *returns
  directly* need not be found to be referenced, because no clause covers the second column of `Return` without
  a local beside it (`PointerMachine.ReturnedSymbolIsMissed`). `PointerMachine.SimpleRulesAreSoundIff` says
  that the analysis is sound for a program exactly when no run returns a symbol directly that it does not find.
- A struct is padded to the alignment of its *first* field, not of its strictest one. A byte, a 64-bit number
  and a byte take 17 bytes where C takes 24. `RuntimeFormat.AsInCIff` says from where the last fields end for
  which types the layout is that of C (section 3.1.2 of the System V AMD64 psABI).
- If two sets of segments have the same hash and one includes the other, a rescan loses the new segments.
  `ElfSegments.AlwaysCoversIff` says that this is the only way.
- A string with a NUL in it does not read back; `StringTable.TableReadsBackIff` says that all others do.

The comment on the stream format (`src/Edges/Encoding.h:76-86`) lists three header words for a function. The
code writes and reads five, with the component and its version behind the symbol, and so does the model.

## Model

| member | source | states |
|---|---|---|
| `EdgeHashSet.SetEpoch` | src/Tracing/Runtime/edge_hash_set.h:126-129 | setting the epoch keeps the edge, and makes no edge above the null ones absent |
| `EdgeHashSet.MaskIsRemainder` | src/Tracing/Runtime/edge_hash_set.h:101 | masking with the table size minus one is the remainder, because the size is a power of two |
| `EdgeHashSet.IndexSequence.constructor` | src/Tracing/Runtime/edge_hash_set.h:85-86 | the sequence starts at the hash of the edge without its low bit |
| `EdgeHashSet.IndexSequence.Next` | src/Tracing/Runtime/edge_hash_set.h:87-102 | the slot is the hash modulo the size: the slot behind the one before, with wrap-around, except that with 3 modulo 4 attempts remaining the hash is mixed; 1024 calls yield a slot |
| `EdgeHashSet.NextProbe` | src/Tracing/Runtime/edge_hash_set.h:90-101 | three of four probes look at the slot behind the one before, with wrap-around |
| `EdgeHashSet.TakenInRow` | src/Tracing/Runtime/edge_hash_set.h:87-102 | an edge whose probes are all taken has found four slots in a row taken |
| `EdgeHashSet.CrowdCount` | src/Tracing/Runtime/edge_hash_set.h:87-102 | so the table is full or has at least four edges |
| `EdgeHashSet.PresentSlots` | src/Tracing/Runtime/edge_hash_set.h:117-125 | with pairwise different edges, as many slots are taken as the set has members |
| `EdgeHashSet.MoveConserves` | src/Tracing/Runtime/edge_hash_set.h:150-159 | one rehash move keeps the set of edges, their uniqueness and that none is null, also when the probe ends at the slot being emptied |
| `EdgeHashSet.MoveSettlesOne` | src/Tracing/Runtime/edge_hash_set.h:139-159 | one rehash move leaves exactly one old-epoch edge less |
| `EdgeHashSet.MoveKeepsFindable` | src/Tracing/Runtime/edge_hash_set.h:140-159 | after a move every rehashed edge still sits on its probe sequence with all earlier probes taken by rehashed edges |
| `EdgeHashSet.DoublingStartsRehash` | src/Tracing/Runtime/edge_hash_set.h:163-174 | flipping the epoch and doubling with a zeroed half makes a table whose edges all wait to be rehashed |
| `EdgeHashSet.InsertAt` | src/Tracing/Runtime/edge_hash_set.h:66-75 | a new edge in the first free slot of its probe sequence gives a table with one more edge |
| `EdgeHashSet.AbsentWhenSlotFree` | src/Tracing/Runtime/edge_hash_set.h:68-78 | meeting a free slot before the edge proves that the edge is absent |
| `EdgeHashSet.NullSpoils` | src/Tracing/Runtime/edge_hash_set.h:117-119 | a null edge is either lost or becomes a present null edge: the reason for the exclusion in `AddEdge` |
| `EdgeHashSet.EdgeHashSet.constructor` | src/Tracing/Runtime/edge_hash_set.h:19-44 | an empty table of 2 to the given power slots |
| `EdgeHashSet.EdgeHashSet.ResizeInsert` | src/Tracing/Runtime/edge_hash_set.h:134-162 | each call keeps the set; one that asks to be called again settles another slot, so the chain of evictions ends; it gives up only if all 1024 probes of the edge in the slot are taken by other, rehashed edges |
| `EdgeHashSet.EdgeHashSet.RehashSlot` | src/Tracing/Runtime/edge_hash_set.h:177-180 | the chain of evictions at a slot ends with nothing of the old epoch in it and the same set |
| `EdgeHashSet.EdgeHashSet.RehashAll` | src/Tracing/Runtime/edge_hash_set.h:176-181 | rehashing every old slot leaves a table at rest with the same set |
| `EdgeHashSet.EdgeHashSet.Remap` | src/Tracing/Runtime/edge_hash_set.h:168-174 | the old contents stay and the new half reads as zeros |
| `EdgeHashSet.EdgeHashSet.IncreaseSize` | src/Tracing/Runtime/edge_hash_set.h:163-183 | in-place doubling keeps the set and the number of taken slots, leaves every edge in the new epoch, and restores all invariants under the doubled mask; it fails exactly when some edge of the set finds all its probes taken by others |
| `EdgeHashSet.EdgeHashSet.FindSlot` | src/Tracing/Runtime/edge_hash_set.h:67-78 | the probe loop returns the free slot where the edge belongs, or finds it present; it runs out exactly when all 1024 probes of the edge are taken by others, and then the edge is absent |
| `EdgeHashSet.EdgeHashSet.AddEdge` | src/Tracing/Runtime/edge_hash_set.h:57-79 | refines adding to a mathematical set: inserted exactly if absent; the count stays the size of the set, at or below the threshold, exactly if the edge is not null; it aborts exactly when the edge is odd, or all probes of it or of an edge of the set are taken by others; for an even edge that takes a set of at least four edges and four taken slots in a row |
| `EdgeHashSet.AddAll` | src/Tracing/Runtime/edge_hash_set.h:57-79 | over any run with any number of doublings, the answers and the final contents are those of a mathematical set; the run aborts exactly on an odd edge or one whose probes are all taken |
| `EdgeHashSet.AddAllToNew` | src/Tracing/Runtime/edge_hash_set.h:19-79 | on a new set a call reports an insertion exactly when the very same edge was not added before, and no even edge is refused before four are in |
| `DlsymPages.InitInv` | src/BraceletReachability/dlsym_runtime.c:15-18 | the empty list satisfies the invariant |
| `DlsymPages.NeverFaults` | src/BraceletReachability/dlsym_runtime.c:18-48 | no operation ever touches a page that is not mapped |
| `DlsymPages.ReserveKeepsInv` | src/BraceletReachability/dlsym_runtime.c:20-23 | the fetch-and-add gives a slot to exactly one operation |
| `DlsymPages.OverflowKeepsInv` | src/BraceletReachability/dlsym_runtime.c:20-23 | a fetch-and-add on a full page only moves the counter |
| `DlsymPages.StoreKeepsInv` | src/BraceletReachability/dlsym_runtime.c:24-26 | the store fills the slot of the storing operation and no other |
| `DlsymPages.MapKeepsInv` | src/BraceletReachability/dlsym_runtime.c:29-37 | a new page is private until it is published, and nothing leaks |
| `DlsymPages.PublishKeepsInv` | src/BraceletReachability/dlsym_runtime.c:38-42 | a successful exchange puts a page in front of pages that are all full |
| `DlsymPages.MissKeepsInv` | src/BraceletReachability/dlsym_runtime.c:38-43 | a failed exchange changes nothing |
| `DlsymPages.UnmapKeepsInv` | src/BraceletReachability/dlsym_runtime.c:43-47 | only a page that was never published is unmapped |
| `DlsymPages.StepKeepsInv` | src/BraceletReachability/dlsym_runtime.c:15-49 | every step of every operation is free of faults and keeps the invariant |
| `DlsymRuns.RunKeepsInv` | src/BraceletReachability/dlsym_runtime.c:15-49 | the invariant holds in every state of every interleaving |
| `DlsymRuns.RunEvolves` | src/BraceletReachability/dlsym_runtime.c:15-49 | pages are only ever added in front, and completed operations stay completed |
| `DlsymRuns.FollowList` | src/BraceletReachability/dlsym_runtime.c:37 | following the links visits the published pages in order and then ends |
| `DlsymRuns.CompletedInsertIsPermanent` | src/BraceletReachability/dlsym_runtime.c:15-49 | a completed insertion has its symbol in a slot of its own on a reachable page, and no later step changes that |
| `DlsymRuns.ListIsFiniteAndFull` | src/BraceletReachability/dlsym_runtime.c:18-47 | the list is finite, without repetition, and full behind its head |
| `DlsymRuns.NoAba` | src/BraceletReachability/dlsym_runtime.c:38-47 | reading the same head twice means that nothing was published in between, whatever addresses were reused |
| `DlsymRuns.CountIsAdds` | src/BraceletReachability/dlsym_runtime.c:20-23 | the counter of a published page grows by one with every fetch-and-add on it, whether there was room or not |
| `DlsymRuns.HeadMovedByPublishing` | src/BraceletReachability/dlsym_runtime.c:39-42 | the head only changes by publishing |
| `DlsymRuns.FailedExchangeMeansProgress` | src/BraceletReachability/dlsym_runtime.c:39-47 | whenever an exchange fails, another operation has published a page since the failing one last learned the head, be it by a load, a failed exchange or publishing a page itself |
| `DlsymProgress.AloneItCompletes` | src/BraceletReachability/dlsym_runtime.c:15-49 | from any reachable state, an insertion that runs on its own for at most ten steps is complete, and its symbol recorded |
| `DlsymRuns.ReadPage` | src/bracelet-edges/bracelet-edges.cpp:151-160 | a page is read up to the smaller of its count and 2046 |
| `DlsymRuns.Walk` | src/bracelet-edges/bracelet-edges.cpp:146-168 | the walk reads the entries of the pages of the list, in order |
| `DlsymRuns.EntriesByOwner` | src/bracelet-edges/bracelet-edges.cpp:150-168 | the entries correspond one to one to the operations with slots on the pages |
| `DlsymRuns.WalkReadsReservations` | src/bracelet-edges/bracelet-edges.cpp:150-168 | at any moment the walk reads one entry per reservation: the symbol if the insertion is complete, and zero otherwise |
| `DlsymRuns.QuietWalk` | src/bracelet-edges/bracelet-edges.cpp:150-168 | with nothing in flight, the walk yields exactly the inserted symbols, each insertion once |
| `EdgeFacts.EdgeOutputVisitor.EnterFunction` | src/bracelet-edges/bracelet-edges.cpp:73-109 | a function starts with empty tables |
| `EdgeFacts.EdgeOutputVisitor.EmitNodeInfo` | src/bracelet-edges/bracelet-edges.cpp:212-231 | a node and its symbol get their rows the first time they are seen, and no rows after that |
| `EdgeFacts.EdgeOutputVisitor.PrintEdge` | src/bracelet-edges/bracelet-edges.cpp:393-417 | an edge gets its row, and the tables describe the nodes of all rows |
| `EdgeFacts.EdgeOutputVisitor.VisitEdge` | src/bracelet-edges/bracelet-edges.cpp:131-178 | a pointer to the page list becomes one artificial assignment per recorded symbol; a local page pointer or an unknown page is an error |
| `EdgeFacts.EdgeOutputVisitor.VisitFunction` | src/bracelet-edges/bracelet-edges.cpp:478-485 | all edges of a function are printed, or there is an error |
| `EdgeFacts.PrintAll` | src/bracelet-edges/bracelet-edges.cpp:477-485 | all functions are printed, or there is an error; the last function of an address keeps the files |
| `EdgeFacts.TablesAreInputs` | src/bracelet-edges/bracelet-edges.cpp:212-231 | the printed tables are exactly the input relations of the rules |
| `EdgeFacts.InputsOfAnalysis` | src/bracelet_scripts/bracelet_reachability/run_it_simple.py:15-40 | the facts of a printed function: its rows, its name and its locals; those of initialisers are kept apart; `main` and the initialisers are the roots |
| `EdgeFacts.InputsAreFromFunctions` | src/bracelet_scripts/bracelet_reachability/run_it_simple.py:15-40 | and there are no other facts |
| `EdgeFacts.DlsymResultIsAssigned` | src/bracelet-edges/bracelet-edges.cpp:141-168 | the symbol of every completed insertion is assigned to the result of `dlsym` in the facts, whenever the dump was taken |
| `EdgeFacts.DlsymResultIsReferenced` | src/bracelet_scripts/bracelet_reachability/gen_rules_simple.py:88-106 | so it is found to be referenced if the function that called `dlsym` is reachable |
| `SimpleRules.ShippedWithinCompleted` | src/bracelet_scripts/bracelet_reachability/gen_rules_simple.py:45-160 | what the rules derive, the rules with a clause for returned symbols derive too |
| `SimpleRules.CompletedWithinShipped` | src/bracelet_scripts/bracelet_reachability/gen_rules_simple.py:45-160 | the converse, if returned symbols are referenced some other way |
| `SimpleRules.ShippedIsCompletedIff` | src/bracelet_scripts/bracelet_reachability/gen_rules_simple.py:88-135 | the missing clause makes no difference exactly when every symbol that a reachable function returns directly is referenced some other way |
| `Justifications.DerivedHasReason` | src/bracelet_scripts/bracelet_reachability/gen_rules_simple.py:45-160 | whatever is derived has a reason in the edges, step by step from the roots |
| `Justifications.JustifiedIsDerived` | src/bracelet_scripts/bracelet_reachability/gen_rules_simple.py:45-160 | and whatever has a reason is derived |
| `Justifications.DerivedIff` | src/bracelet_scripts/bracelet_reachability/gen_rules_simple.py:45-160 | a function is found to be reachable, and a symbol to be referenced, exactly when there is such a list of reasons |
| `Justifications.InitialisersIff` | src/bracelet_scripts/bracelet_reachability/gen_rules_simple.py:45-51 | the assignments and stores of initialisers are followed along every path of constants, and along nothing else |
| `Justifications.CallGraphIff` | src/bracelet_scripts/bracelet_reachability/gen_rules_simple.py:134-154 | a call has a direct edge in the callgraph if it names the callee, and a conservative one to every referenced symbol if it is indirect or starts a thread |
| `Justifications.ReachableHasChain` | src/bracelet_scripts/bracelet_reachability/gen_rules_simple.py:130 | a function is found to be reachable only if a chain of calls, direct ones or possible indirect ones, leads to it from a root |
| `PointerMachine.StepKeepsSound` | src/bracelet_scripts/bracelet_reachability/gen_rules_simple.py:87-160 | by the rules with or without the clause for returned symbols, every step of the pointer machine stays inside the least model, except for returning a symbol that is not in it |
| `PointerMachine.InitialSound` | src/bracelet_scripts/bracelet_reachability/gen_rules_simple.py:39-48 | the stores of global initialisers, followed through constants, are inside the least model |
| `PointerMachine.RunSound` | src/bracelet_scripts/bracelet_reachability/gen_rules_simple.py:45-160 | so does every state of every run |
| `PointerMachine.RunCoveredIff` | src/bracelet_scripts/bracelet_reachability/gen_rules_simple.py:87-160 | the rules as they are cover a run exactly when they find every symbol that the run returns directly |
| `PointerMachine.SimpleRulesAreSoundIff` | src/bracelet_scripts/bracelet_reachability/gen_rules_simple.py:87-160 | they are sound for a program exactly when they find every symbol that some run returns directly (the README.md of the repository, line 49, promises soundness without a condition) |
| `PointerMachine.CompletedRulesAreSound` | src/bracelet_scripts/bracelet_reachability/gen_rules_simple.py:87-160 | with the clause for returned symbols, every activated function is reachable, every call is in the callgraph and every held symbol is referenced |
| `PointerMachine.SimpleRulesAreSound` | src/bracelet_scripts/bracelet_reachability/gen_rules_simple.py:87-160 | for which it is enough that symbols returned by reachable functions are referenced some other way |
| `PointerMachine.LocalReturnsSuffice` | src/bracelet_scripts/bracelet_reachability/gen_rules_simple.py:87-160 | or that no function returns a symbol directly, a condition on the edges alone |
| `PointerMachine.ReturnedSymbolIsMissed` | src/bracelet_scripts/bracelet_reachability/gen_rules_simple.py:100-106 | without the condition it fails: a program whose run activates a function that the rules do not reach |
| `DirectCalls.ReachableIsActivated` | src/bracelet_scripts/bracelet_reachability/gen_rules_simple.py:130-137 | where every call names its callee, a run activates every function that is found to be reachable |
| `DirectCalls.DirectCallsAreExact` | src/bracelet_scripts/bracelet_reachability/gen_rules_simple.py:130-137 | so there the analysis is exact: a function is found to be reachable exactly when some run activates it |
| `PointerExample.ValuesFlow` | README.md:49 | a run in which a function is called through a pointer that was stored, loaded, passed and returned, and another one by a thread |
| `SlabArithmetic.HighestBit` | src/Tracing/Runtime/vhmalloc.cpp:314 | the position of the highest bit |
| `SlabArithmetic.BinIsLeast` | src/Tracing/Runtime/vhmalloc.cpp:314-315 | the bin is the first one whose elements hold the size |
| `SlabArithmetic.ClassIsClose` | src/Tracing/Runtime/vhmalloc.cpp:313-316 | the size of the class is at least the size, and 16 or less than twice the size |
| `SlabArithmetic.PagesAreFew` | src/Tracing/Runtime/vhmalloc.cpp:117-122 | less than a page is mapped beyond what is needed |
| `SlabArithmetic.BinFitsIff` | src/Tracing/Runtime/vhmalloc.cpp:314-316 | the assertion on the bin holds exactly for sizes up to 2^29 |
| `SlabArithmetic.CapacityIsExact` | src/Tracing/Runtime/vhmalloc.cpp:117-122 | slabs have no slack, and room for at least the elements asked for |
| `SlabArithmetic.ElementOfByte` | src/Tracing/Runtime/vhmalloc.cpp:162-177 | every byte of element i is found as element i at its offset |
| `SlabArithmetic.ByteInElement` | src/Tracing/Runtime/vhmalloc.cpp:162-172 | every byte of a slab is in one of its elements |
| `SlabArithmetic.ElementInSlab` | src/Tracing/Runtime/vhmalloc.cpp:174-177 | the elements of a slab stay within it |
| `PageTables.SplitAddress` | src/Tracing/Runtime/vhmalloc.cpp:77-95 | the two levels of the lookup split the page number |
| `PageTables.PageTable.constructor` | src/Tracing/Runtime/vhmalloc.cpp:80 | an empty table |
| `PageTables.PageTable.Get` | src/Tracing/Runtime/vhmalloc.cpp:82-97 | the slab of the page of any address, or none, also beyond the table |
| `PageTables.PageTable.Mark` | src/Tracing/Runtime/vhmalloc.cpp:99-115 | marking a page changes the answer for that page only |
| `PageTables.PageTable.AllocateRegion` | src/Tracing/Runtime/vhmalloc.cpp:103-110 | a new second level changes no answer |
| `FreeSlots.RankIsUnique` | src/Tracing/Runtime/vhmalloc.cpp:234-259 | the map from offsets below the free count to free slots is a bijection |
| `FreeSlots.SlotOfRank` | src/Tracing/Runtime/vhmalloc.cpp:234-259 | every offset below the free count is the rank of a free slot |
| `FreeSlots.ChainIsFreeSlabs` | src/Tracing/Runtime/vhmalloc.cpp:179-216 | going from a slab to the next older one with free slots visits exactly the slabs with free slots, in order |
| `FreeSlots.OlderExists` | src/Tracing/Runtime/vhmalloc.cpp:237-241 | while the offset is not used up, the free list goes on |
| `FreeSlots.NeighboursWhenOpened` | src/Tracing/Runtime/vhmalloc.cpp:179-204 | a slab that gets a free slot comes between its nearest neighbours, and no other link changes |
| `FreeSlots.NeighboursWhenClosed` | src/Tracing/Runtime/vhmalloc.cpp:206-216 | without a slab, its neighbours are each other's |
| `FreeSlots.WriteOpensOrCloses` | src/Tracing/Runtime/vhmalloc.cpp:246-251 | writing one id opens its slab, closes it, or leaves the free list alone |
| `FreeSlots.CountsOfUpdate` | src/Tracing/Runtime/vhmalloc.cpp:246-248 | writing one id changes the counts of the slab and the pool by the same amount |
| `SlabPools.ElementOfAddress` | src/Tracing/Runtime/vhmalloc.cpp:162-177 | `getElementIndex` of any byte of element i is i |
| `SlabPools.AddressOfElement` | src/Tracing/Runtime/vhmalloc.cpp:162-172 | every byte of a slab lies within the element found for it, at the offset found |
| `SlabPools.MarkPages` | src/Tracing/Runtime/vhmalloc.cpp:136-138 | all pages of a slab get its mark |
| `SlabPools.Pool.constructor` | src/Tracing/Runtime/vhmalloc.cpp:218-225 | an empty pool |
| `SlabPools.Pool.AddSlab` | src/Tracing/Runtime/vhmalloc.cpp:124-158 | a new slab goes to the front of both lists, and both stay consistent |
| `SlabPools.Pool.LinkFull` | src/Tracing/Runtime/vhmalloc.cpp:140-146 | adding to the front of the list of all slabs |
| `SlabPools.Pool.PushFree` | src/Tracing/Runtime/vhmalloc.cpp:148-157 | adding to the front of the free list |
| `SlabPools.Pool.FindYounger` | src/Tracing/Runtime/vhmalloc.cpp:180-182 | the walk finds the nearest predecessor with free slots |
| `SlabPools.Pool.MakeFree` | src/Tracing/Runtime/vhmalloc.cpp:179-204 | after it the free list is again the part of the list of all slabs with free slots, in order |
| `SlabPools.Pool.MakeFull` | src/Tracing/Runtime/vhmalloc.cpp:206-216 | after it the free list is again the part of the list of all slabs with free slots, in order |
| `SlabPools.Pool.FreeListIsFreeSlabs` | src/Tracing/Runtime/vhmalloc.cpp:179-216 | following the pointers of the free list from its head visits exactly the slabs with free slots, in the order of the list of all slabs |
| `SlabPools.Pool.FindSlab` | src/Tracing/Runtime/vhmalloc.cpp:237-241 | the walk over slabs never meets the end of the list |
| `SlabPools.Pool.FindIndex` | src/Tracing/Runtime/vhmalloc.cpp:243-261 | the scan ends at the free slot of the given rank, so the assertion behind it is unreachable |
| `SlabPools.Pool.Take` | src/Tracing/Runtime/vhmalloc.cpp:235-251 | the free slot of the chosen rank is taken, and nothing else |
| `SlabPools.Pool.Deallocate` | src/Tracing/Runtime/vhmalloc.cpp:264-274 | the slot becomes free, and lists and counts stay consistent |
| `SlabPools.Pool.Retag` | src/Tracing/Runtime/vhmalloc.cpp:362-366 | one nonzero id replaces another |
| `VhMalloc.LiveBlocksAreDisjoint` | src/Tracing/Runtime/vhmalloc.cpp:227-285 | live blocks do not overlap |
| `VhMalloc.LiveAfterWrite` | src/Tracing/Runtime/vhmalloc.cpp:246-253 | writing one id adds, removes or retags one block |
| `VhMalloc.BlocksAfterGrowth` | src/Tracing/Runtime/vhmalloc.cpp:117-138 | a new slab changes no block |
| `VhMalloc.Heap.constructor` | src/Tracing/Runtime/vhmalloc.cpp:79-80 | nothing is live at first, and everything the heap may change is new |
| `VhMalloc.Heap.NewThread` | src/Tracing/Runtime/vhmalloc.cpp:301-311 | one more thread has pools, and no block changes |
| `VhMalloc.Heap.Of` | src/Tracing/Runtime/vhmalloc.cpp:350-356 | the tag and offset in the one live block that has the address, and zeroes for every other address |
| `VhMalloc.Heap.GetId` | src/Tracing/Runtime/vhmalloc.cpp:276-285 | the tag and offset from the id of the element |
| `VhMalloc.Heap.UsableSize` | src/Tracing/Runtime/vhmalloc.cpp:333-340 | the size of the block that has the address; for every address of a slab the size of its elements, and zero elsewhere |
| `VhMalloc.Heap.Free` | src/Tracing/Runtime/vhmalloc.cpp:323-331 | the block of the address is gone, and nothing else changes for any thread |
| `VhMalloc.Heap.Malloc` | src/Tracing/Runtime/vhmalloc.cpp:296-321 | a new block of the size class with the largest tag, not null and apart from all live ones, and no other change to blocks or threads; sizes above 2^29 abort |
| `VhMalloc.Heap.Allocate` | src/Tracing/Runtime/vhmalloc.cpp:227-262 | the new block was not live before; it is in the free slot whose rank is the random number modulo the number of free slots; at least three slots stay free |
| `VhMalloc.Heap.AllocateSlab` | src/Tracing/Runtime/vhmalloc.cpp:117-158 | more free slots, and no change to any block |
| `VhMalloc.Heap.SetTag` | src/Tracing/Runtime/vhmalloc.cpp:358-367 | retags the one live block of the address that has no tag yet, and its assertions fail otherwise |
| `VhMallocRuns.Run` | src/Tracing/Runtime/vhmalloc.cpp:227-367 | any requests of any threads (thread starts, malloc, free, setTag, lookups) in any order are answered as the map from live address ranges to tags says, up to the first failed assertion |
| `VhMallocRuns.RunProcess` | src/Tracing/Runtime/vhmalloc.cpp:79-80 | so it is for whole processes, whose live blocks never overlap in any state |
| `VhMallocRuns.RunKeepsWellFormed` | src/Tracing/Runtime/vhmalloc.cpp:227-285 | the live blocks are disjoint, not empty and tagged in every state of every run |
| `VhMallocRuns.StepKeepsBlock` | src/Tracing/Runtime/vhmalloc.cpp:227-367 | a block stays until a request frees an address in it, and only a successful setTag changes its tag |
| `VhMallocRuns.AllocatedIsFound` | src/Tracing/Runtime/vhmalloc.cpp:276-285 | from its allocation until it is freed, a lookup of any address of a block gives the offset in the block and the tag it has got since |
| `VhMallocRuns.FoundWasAllocated` | src/Tracing/Runtime/vhmalloc.cpp:350-356 | a lookup that gives anything but zeroes is of an address in a block that was allocated before and not freed since |
| `VhMallocRuns.AllocationsAreDisjoint` | src/Tracing/Runtime/vhmalloc.cpp:246-260 | a block that is allocated while another one is live has no address in common with it |
| `VhMallocRuns.TagIsForLife` | src/Tracing/Runtime/vhmalloc.h:32-34 | setTag fails for a block that has got a tag before, and works for one that has not |
| `EdgeEncoding.PackUnpack` | src/Edges/Edges.h:22-55 | packing and unpacking are inverse on the nodes that fit |
| `EdgeEncoding.PackOutside` | src/Edges/Edges.h:22-41 | for other nodes the assertions fail, except where the increment wraps around |
| `EdgeEncoding.ZigzagBijection` | src/Edges/Encoding.h:98-101 | zigzag is a bijection between 32-bit integers and words |
| `EdgeEncoding.ZigzagIsSmall` | src/Edges/Encoding.h:98-100 | small magnitudes get small codes |
| `EdgeEncoding.DoublingIsExact` | src/Edges/Encoding.h:98-100 | the doubling is defined exactly when the double fits 32 bits |
| `EdgeEncoding.SmallNumbersEncode` | src/Edges/Encoding.h:98-100 | the doubling is defined for deltas of numbers below 2^30 |
| `EdgeWriter.WrittenDeltasDefined` | src/Edges/Encoding.h:98-100 | so for all deltas that are written with up to 2^29 symbols |
| `EdgeEncoding.DeltaRoundTrip` | src/Edges/Reader.cpp:337-342 | adding the decoded delta gives the number back |
| `EdgeEncoding.EncodeSymbolIff` | src/Edges/Writer.h:88-94 | a symbol index survives the encoding exactly when it is below 2^31 |
| `EdgeEncoding.NodeRoundTrip` | src/Edges/Reader.cpp:123-133 | a node comes back, relocated, exactly when it is a symbol or a local of the own function |
| `EdgeEncoding.DecodeNodeIff` | src/Edges/Reader.cpp:123-133 | odd numbers are symbols, even ones locals; a number beyond the symbols or the node type is an error |
| `EdgeStream.DeltasRoundTrip` | src/Edges/Reader.cpp:333-354 | the deltas of a block are undone |
| `EdgeStream.KindsRoundTrip` | src/Edges/Reader.cpp:422-429 | the eight blocks of a function are read back, with the words behind them |
| `EdgeStream.RecordRoundTrip` | src/Edges/Reader.cpp:390-429 | a function is read back, or refused for having more allocas than locals |
| `EdgeStream.StreamRoundTrip` | src/Edges/Reader.cpp:390-431 | a stream is read back with all its words used, or refused for an alloca count |
| `StringTable.ParseOffsets` | src/Edges/Reader.cpp:76-88 | the loop finds the offsets of the strings |
| `StringTable.NotTerminatedIff` | src/Edges/Reader.cpp:76-95 | it fails exactly if the last string has no NUL behind it |
| `StringTable.TableReadsBackIff` | src/Edges/Reader.cpp:76-88 | every string reads back under its number exactly when no string contains a NUL |
| `StringTable.BlobOfAppend` | src/Edges/Writer.cpp:101-105 | appending a string and a NUL extends the table |
| `EdgeWriter.InternMore` | src/Edges/Writer.cpp:88-91 | interning keeps the map and the order in step |
| `EdgeWriter.GraphWriter.constructor` | src/Edges/Writer.cpp:67-68 | an empty writer, without functions, symbols and strings |
| `EdgeWriter.GraphWriter.Symbol` | src/Edges/Writer.cpp:77-95 | the node of a global is its position among the symbols, to which it is added if it is new; no other position changes |
| `EdgeWriter.GraphWriter.String` | src/Edges/Writer.cpp:96-106 | the number of a string is its position among the strings, to which it is added if it is new; nothing else is |
| `EdgeWriter.GraphWriter.LocalName` | src/Edges/Writer.cpp:147-152 | the name of a local is recorded behind those before it, and interned, if names are recorded |
| `EdgeWriter.GraphWriter.WriteEdges` | src/Edges/Writer.cpp:184-201 | the count and the deltas with one running value shared by both ends |
| `EdgeWriter.GraphWriter.WriteRecord` | src/Edges/Writer.cpp:158-203 | the five header words and the eight kinds of edges |
| `EdgeWriter.GraphWriter.WriteFunction` | src/Edges/Writer.cpp:154-204 | the active function joins the finished ones |
| `EdgeWriter.FunctionWriter.constructor` | src/Edges/Writer.cpp:127-143 | a function becomes active with the numbers of its symbol and component, which with the version are all that is interned |
| `EdgeWriter.FunctionWriter.FreshLocal` | src/Edges/Writer.cpp:147-153 | locals are numbered in order; at most the name is interned |
| `EdgeWriter.FunctionWriter.AddEdge` | src/Edges/Writer.h:72-81 | the edge is added to its kind |
| `EdgeWriter.FunctionWriter.Finish` | src/Edges/Writer.cpp:154-204 | the function is written as it was given, whatever permutation the sort produces, and nothing is interned |
| `EdgeReader.VisitEdges` | src/Edges/Reader.cpp:333-354 | the visit hands out the decoded edges, or stops at an error |
| `EdgeReader.VisitEdge` | src/Edges/Reader.cpp:337-351 | one edge and the running value behind it |
| `EdgeReader.Frame.NextWords` | src/Edges/Reader.cpp:134-141 | words are taken from the front, if there are enough |
| `EdgeReader.Frame.NextLocals` | src/Edges/Reader.cpp:148-156 | the locals are split at the number of locals of the function |
| `EdgeReader.Frame.NextSpans` | src/Edges/Reader.cpp:422-429 | the spans of the eight kinds of edges, or an error |
| `EdgeReader.Frame.NextFunction` | src/Edges/Reader.cpp:392-429 | one function, or an error for any number out of range |
| `EdgeReader.Frame.ReadFunctions` | src/Edges/Reader.cpp:390-431 | all functions are handed out, each with its own locals, or there is an error |
| `EdgeRoundTrip.OwnEdgeRoundTrip` | src/Edges/Reader.cpp:123-133 | an edge of a function comes back relocated |
| `EdgeRoundTrip.DecodePermuted` | src/Edges/Writer.cpp:169-183 | a permutation of edges decodes to a permutation |
| `EdgeRoundTrip.SpanSeesEdges` | src/Edges/Reader.cpp:333-354 | the visit of a kind sees the same multiset of edges, relocated |
| `EdgeRoundTrip.HereFits` | src/Edges/Reader.cpp:96-105 | every function sees the names of its own locals |
| `EdgeRoundTrip.ReadAllIff` | src/Edges/Reader.cpp:390-431 | reading succeeds exactly when no function has more allocas than locals |
| `EdgeRoundTrip.HandedOutIsFaithful` | src/Edges/Reader.cpp:392-430 | header, names and edges handed out are those given to the writer |
| `EdgeRoundTrip.ReadBack` | src/Edges/Reader.cpp:379-437 | what the writer was given about every function is what the reader hands out, up to relocation, and all words are used |
| `EdgeFiles.GlobalsGrow` | src/Edges/Writer.cpp:88-91 | what a function mentions is added behind the symbols before it, so their numbers stay |
| `EdgeFiles.NulFreeStrings` | src/Edges/Writer.cpp:96-106 | the string table of a file holds only components, versions and recorded names |
| `EdgeFiles.WriteFunction` | src/Edges/Writer.cpp:127-204 | a function built by any sequence of new locals and edges is finished as it was given |
| `EdgeFiles.WriteFile` | src/Edges/Writer.cpp:67-204 | any list of functions is written as it was given, with the symbols and strings in the order of their first mention |
| `EdgeFiles.LinksRelocated` | src/Edges/Reader.cpp:123-133 | relocated nodes are the addresses of the globals that were given, and the own locals |
| `EdgeFiles.WriteAndRead` | src/Edges/Reader.cpp:379-437 | any list of functions comes back from a file: address, component, version, names and counts, and for each of the eight kinds the same multiset of edges with globals replaced by their addresses, whatever the sort does; it is refused exactly when some function has more allocas than locals |
| `GraphSection.NumbersOfWords` | src/Edges/Encoding.h:39-47 | words in memory read back |
| `GraphSection.WordsOfNumbers` | src/Edges/Encoding.h:39-47 | and the bytes of what was read are the bytes that were there |
| `GraphSection.MagicIsTwoWords` | src/Edges/Encoding.h:37-38 | the bytes of the magic number |
| `GraphSection.FindBehindZeros` | src/Edges/Reader.cpp:181-192 | zeros before a graph are skipped exactly |
| `GraphSection.ConsumeWritten` | src/Edges/Reader.cpp:244-257 | reading at a graph gives the graph and its size |
| `GraphSection.ConsumedIsWritten` | src/Edges/Reader.cpp:244-257 | what is read is a graph that was written there |
| `GraphSection.RunOnSection` | src/Edges/Reader.cpp:167-204 | the loop over a section; every graph it finds is at its place in the bytes: the words of the header, 8 bytes for the debug data and for each of the symbols counted at byte 16, and the function data of the size at byte 8 |
| `GraphSection.ConsumedIsThere` | src/Edges/Reader.cpp:227-260 | what is consumed at a magic number has these sizes, and 40 bytes of header |
| `GraphSection.JoinedIsSplit` | src/Edges/Reader.cpp:167-204 | graphs joined by zeros are split into exactly these graphs, without a warning |
| `GraphSection.SplitIsJoined` | src/Edges/Reader.cpp:167-204 | a scan without a warning is of a section that joins the graphs found |
| `ElfSegments.NeverFaults` | src/Tracing/Runtime/elf_segments.cpp:42-99 | no step reads a set that was freed, and the assertion behind the second load holds |
| `ElfSegments.SameHashKeepsInv` | src/Tracing/Runtime/elf_segments.cpp:86-89 | with equal hashes, what was found is published already |
| `ElfSegments.PublishKeepsInv` | src/Tracing/Runtime/elf_segments.cpp:90-97 | what replaces the published set includes it |
| `ElfSegments.StepKeepsInv` | src/Tracing/Runtime/elf_segments.cpp:42-99 | every step of every call keeps the invariant |
| `ElfSegments.StepGrows` | src/Tracing/Runtime/elf_segments.cpp:90-97 | no step takes anything published back |
| `ElfSegments.RunKeepsInv` | src/Tracing/Runtime/elf_segments.cpp:42-99 | over any interleaving, published sets only grow, are never null again, and stay usable for readers |
| `ElfSegments.RescanCovers` | src/Tracing/Runtime/exports.cpp:47-49 | once a rescan has returned, some set is published for good, and has everything that was loaded before the call |
| `ElfSegments.AnswersAreRight` | src/Tracing/Runtime/elf_segments.cpp:42-53 | a query finds every segment settled before its call, and nothing that is not loaded |
| `ElfQueries.QueryFinds` | src/Tracing/Runtime/elf_segments.cpp:42-53 | a query answers true for every address in a segment that was published when it entered or, if nothing was, in one that was loaded then; and only for addresses in loaded segments |
| `ElfQueries.PublishingIsNews` | src/Tracing/Runtime/elf_segments.cpp:86-97 | a published set is only ever replaced by one with more segments |
| `ElfQueries.AloneItEnds` | src/Tracing/Runtime/elf_segments.cpp:42-99 | from any reachable state, a call that runs on its own for at most eight steps ends: a query with its answer, the others by returning |
| `ElfSegments.CollisionLosesSegments` | src/Tracing/Runtime/elf_segments.cpp:86-89 | if adding segments does not change the hash, a rescan returns without publishing them |
| `ElfSegments.AlwaysCoversIff` | src/Tracing/Runtime/elf_segments.cpp:86-89 | rescans cover what was loaded exactly for the hashes that change whenever segments are added |
| `NodeStates.AddOne` | src/PointsTo/PointsTo.cpp:189-203 | one more observation succeeds exactly if it is consistent with those before, and gives the joins of all |
| `NodeStates.ObserveAllIff` | src/PointsTo/PointsTo.cpp:189-203 | a sequence of observations succeeds exactly when no node has two different ones that are not undefined, and then gives the pointwise join |
| `NodeStates.JoinMapIsUnique` | src/PointsTo/PointsTo.cpp:53-56 | there is one map of joins |
| `NodeStates.OrderDoesNotMatter` | src/PointsTo/PointsTo.cpp:189-203 | neither the order of observations nor their repetition matters |
| `NodeStates.RepeatIsNothing` | src/PointsTo/PointsTo.cpp:159-160 | looking up the override of a node once is enough |
| `NodeStates.EmitC.SetNargs` | src/PointsTo/PointsTo.cpp:189-203 | sets the state, keeps it, or fails |
| `NodeStates.EmitC.VisitEdge` | src/PointsTo/PointsTo.cpp:136-173 | an edge is observed in the order of its kind and its two ends, with overrides |
| `NodeStates.EmitC.VisitFunction` | src/PointsTo/PointsTo.cpp:132-179 | the edges of a function, and the number of its arguments |
| `NodeStates.EmitC.InitialPass` | src/PointsTo/PointsTo.cpp:131-181 | the pass succeeds exactly when the observations are consistent, and computes their joins |
| `NodeStates.MaxArgsIsMax` | src/PointsTo/PointsTo.cpp:149-152 | the number of arguments is the largest that an argument number asks for |
| `NodeStates.StatesAreTold` | src/PointsTo/PointsTo.cpp:131-203 | after a pass without error, a node is data or a function of so many arguments exactly if a store, a call, an override or its own argument numbers say so |
| `NodeStates.KnownNodes` | src/PointsTo/PointsTo.cpp:153-179 | the nodes with a state are the functions and what they mention of others |
| `NodeStates.PassIsOrderIndependent` | src/PointsTo/PointsTo.cpp:131-181 | the result is the same for every order of functions and of their edges |
| `RuntimeFormat.AlignUp` | src/RuntimeFormat/runtime_format.py:444-446 | counting up finds the next multiple |
| `RuntimeFormat.FieldOffsets` | src/RuntimeFormat/runtime_format.py:440-449 | the loop finds the offsets |
| `RuntimeFormat.FieldsFit` | src/RuntimeFormat/runtime_format.py:440-449 | fields are aligned and end before the next one starts |
| `RuntimeFormat.FieldsAreDisjoint` | src/RuntimeFormat/runtime_format.py:440-461 | fields are disjoint and inside the struct |
| `RuntimeFormat.CStructIff` | src/RuntimeFormat/runtime_format.py:452-461 | the struct has the layout of C exactly if its last field ends at a multiple of the strictest alignment, or less than the alignment of the first field before one; so always if the first field is the strictest |
| `RuntimeFormat.AsInCIff` | src/RuntimeFormat/runtime_format.py:452-461 | a type and everything in it is laid out as in C exactly if this holds for the fields of every struct in it |
| `RuntimeFormat.WholeIsC` | src/RuntimeFormat/runtime_format.py:452-461 | such types have the size and alignment of C |
| `RuntimeFormat.NotTheLayoutOfC` | src/RuntimeFormat/runtime_format.py:454-457 | a type for which it does not hold: 17 bytes, where C has 24 |
| `RuntimeFormat.TimesIsProduct` | src/RuntimeFormat/runtime_format.py:246-251 | the size of an array is the product |
| `RuntimeFormat.DlsymPageLayout` | src/RuntimeFormat/runtime_format.py:730-741 | the page of the `dlsym` list fills 16 KiB as in C, with 2046 pointers |
| `RuntimeValues.NumberRoundTrip` | src/RuntimeFormat/runtime_format.py:136-142 | integers in range are unpacked as they were packed |
| `RuntimeValues.PackedIsRemainder` | src/RuntimeFormat/runtime_format.py:136-142 | in memory an integer is its remainder modulo 256 to its size: two's complement |
| `RuntimeValues.StructFits` | src/RuntimeFormat/runtime_format.py:408-420 | fields and padding fit the struct |
| `RuntimeValues.RoundTrip` | src/RuntimeFormat/runtime_format.py:131-420 | unpacking after packing is the identity, for every type and whatever was in the buffer |
| `RuntimeValues.ElemsRoundTrip` | src/RuntimeFormat/runtime_format.py:228-240 | the same for the elements of an array |
| `RuntimeValues.FieldsRoundTrip` | src/RuntimeFormat/runtime_format.py:408-420 | the same for the fields of a struct |
| `RuntimePacking.PackBytes` | src/RuntimeFormat/runtime_format.py:141-142 | the bytes of a number, lowest first |
| `RuntimePacking.PackInto` | src/RuntimeFormat/runtime_format.py:141-142 | packing in place changes the part of the value and nothing else |
| `RuntimePacking.PackElems` | src/RuntimeFormat/runtime_format.py:235-240 | the loop over elements |
| `RuntimePacking.PackFields` | src/RuntimeFormat/runtime_format.py:416-420 | the loop over fields at their offsets |
| `RuntimePacking.StartsAreOffsets` | src/RuntimeFormat/runtime_format.py:439-449 | the padding before the fields leads to their offsets |
| `RuntimePacking.WrittenIsRead` | src/RuntimeFormat/runtime_format.py:408-420 | what was packed into a buffer is unpacked from it, and the rest of the buffer is as before |

## Left out

- The LLVM pass, the parsing of object files and core dumps, DWARF labels and source locations: they mostly call libraries.
- zstd and streamvbyte: the model takes the word arrays and compressed blobs on both sides as equal.
- `ftruncate`, `mmap`, `mremap` and `munmap`: they succeed, new memory reads as zeros, and mapped regions do not overlap.
- The two hash functions of the edge set and the hash of segments: any functions; nothing is said about how rare exhausted probes or collisions are.
- The C++ memory model: atomic accesses are sequentially consistent, and an allocator operation under its lock is one step.
- Readiness flags and teardown of the edge set, and the file behind it: `is_ready` and destructors are not modelled.
- `free_tail` of a pool: it is set as the code sets it, but nothing is proved of it over calls, since nothing reads it and `makeFull` does not maintain it.
- VhMalloc.Heap.Free: excludes freeing what is not live, since the code does not detect it.
- VhMalloc.Heap.Malloc: excludes size 1, where the count of leading zeros is undefined, and the use before pools are ready, which goes to another allocator.
- VhMalloc.Heap.SetTag: a failing assertion is the result false, so it also covers a null tag and memory of others.
- VhMallocRuns.Run: requests that no caller may make (those above, an unknown thread, or memory that is in use) are answered as refused; the code has no such answer.
- SlabPools.Slab.constructor: the ids are a sequence in the slab instead of memory behind it.
- Clearing the contents of a new block: the model has addresses and tags, not contents.
- EdgeWriter.FunctionWriter.Finish: the sorted edges are any permutation, since the comparison is not a strict weak order; the words are appended one by one instead of written into a resized array.
- EdgeWriter.GraphWriter.Symbol: globals are distinct values; aliases and the checks on comdat groups are not modelled.
- EdgeRoundTrip.ReadBack: for local indices up to 65534 and fewer than 2^31 symbols, which is where nodes fit their words, and NUL-free strings. Above 2^29 symbols this relies on the doubling of deltas wrapping around.
- EdgeFiles.WriteAndRead: a string table of fewer than 2^32 bytes and fewer than 2^32 edges of a kind, which is what the writer asserts or stores in 32 bits, besides the limits of `ReadBack`.
- EdgeEncoding.ZigzagEncode: the doubling of a large delta overflows a signed integer, which is undefined in C++; the model wraps around.
- GraphSection: pointers have 8 bytes, as the writer asserts.
- EdgeFacts.EdgeOutputVisitor.VisitEdge: the pages are walked before the first row is printed, which only matters for files left behind by an error; a cyclic list would not end.
- Names of symbols and starred nodes, pretty printing and the other tables of facts: no rule of the simple analysis reads them.
- Objects with several cells, and what the LLVM pass leaves out of the graph: the machine runs the recorded edges.
- PointerMachine.StepKeepsSound: the programs have the edges that the LLVM pass makes, where what an instruction defines is a local, and the callsite of a call is one of the caller; the writer of the metadata would take others.
- NodeStates.EmitC.InitialPass: the number of arguments of library functions is known per symbol; a symbol without a name is not modelled.
- RuntimeFormat.LayoutOf: enumerations, which are stored as integers, and the generated C, LLVM and LLDB text.
- `gen_rules.py`, SVF, path search, SARIF, version ranges and snapshots: prototypes, text and external solvers.
