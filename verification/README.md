# A verified model of the allocator and its checkers

This project models, in Dafny, the parts of the bundled gperftools that hand out
memory and watch over it, and proves what they rely on. `dafny verify
dfyconfig.toml` checks all of it.

The page-level allocator
: `SpanLists`, `PageLayout`, `FreeSpans`, `HeapState`, `ReleaseOrder`, `Searches` and
  `PageHeaps` model `page_heap.cc` and `span.cc`. Span descriptors, the links between them, the page
  map and the counters are fields that the methods of `PageHeap` update in place;
  a descriptor may be reused after it was deleted, and entries of the page map
  inside a span may be stale, as in the code. The invariant `HeapState.Sound`
  relates all of it to an ideal page table, and every method keeps it.

The central free lists
: `CentralState` gives one class's list as a value and what each critical section
  makes of it; `CentralLists` does the same work on linked lists and arrays, and
  each method is proved to be that step. `CentralProtocol` is the concurrent
  protocol of `central_freelist.cc` and `static_vars.cc`: any number of threads,
  interleaved between the points where locks are taken and dropped.
  `CentralSafety`, `CentralSteps` and `CentralSpans` prove that every step keeps
  one invariant, `CentralTheorems` what follows for all runs, and `CentralService`
  what a call gives its caller.

The leak checker
: `AddressMaps` models the hash chains, block lists and free list of
  `addressmap-inl.h` and proves that they are a finite map with a backwards search
  for ranges. `HeapProfiles` puts the table of allocations on it, `Reachability`
  says what a mark phase should compute, and `LeakChecks` proves that the flood
  with its explicit stack computes that, and that a check reports exactly the
  unreachable objects.

Smaller cores
: `MemoryRegions` (the set of mmap-ed regions, and the subtraction of regions from
  global data), `ProfileStream` and `ProfileCollector` (the CPU profile),
  `FreeQueues` (the queue of freed blocks in debug mode), `PageMaps` (the two- and
  three-level radix trees) and `SizeClasses` (the table of size classes).
  `LinkedLists`, `Sequences` and `Arithmetic` are shared.

Memory that the code reaches through pointers is explicit: a map from a node to
what its link field holds, or an object for a node of a tree. The operating
system, the page heap as the central lists see it, the unsynchronised counter
that picks a victim, and failing allocations are nondeterministic, within what
the code may rely on.

Where code and documentation disagree, the model follows the code:

- The comment on `NonLiveSnapshot` (`heap-profile-table.h:175-179`) promises only
  objects that are not ignored, but `AddIfNonLive` does not look at that bit. What
  keeps ignored objects out of a report is that the check makes them roots
  (`LeakChecks.IgnoredReachable`).
- `RecordRegionRemoval` means to cut a range out of the middle of a region, but the
  part in front is lost (`MemoryRegions.RemovalExact`, `SplitLoses`).
- `DoFindRegionLocked` misses the region that starts at an address where another
  one ends (`MemoryRegions.MemoryRegionMap.FindRegion`, `AdjacentMissed`).
- `GetNextRange` finds the next span, through that span's own page, if and only if
  it is not started inside a span.
  `IterateOverRanges` gives up the lock after every 16 ranges, and a merge in the
  meantime can put the page that it saved inside a span (`PageHeaps.PageHeap.NextBatch`,
  `PageHeaps.NextInside`, `MergeBreaks`, `StaleInside`).
- The comment in `AllocLarge` (`page_heap.cc:223`) says that `EnsureLimit` would have
  succeeded if there were a normal span that fits. It need not: the limit may be
  exceeded already, or the system may refuse to take memory back
  (`PageHeaps.PageHeap.AllocLarge` has the exact condition, `BestNormalLeft` the
  heaps).
- In aggressive mode `MergeIntoFreeList` asserts that `temp_committed` is 0 when the
  system refuses to take pages back. That holds if and only if no free span was next
  to the one that is freed (`PageHeaps.PageHeap.MergeIntoFreeList`, `RefusedBreaks`).
- The region map means its regions not to overlap, and a debug build checks it. In
  other builds an overlapping region may be inserted, or ignored because its end is
  in use as a key (`MemoryRegions.MemoryRegionMap.RecordRegionAddition`,
  `OverlapAdded`, `EndTaken`).
- A transfer limit of -4 or less from the environment keeps `SizeMap::Init` from
  ending (`SizeClasses.NegativeLimit`); with one from -3 to 0 it ends, but the
  assertion on `objs_to_move` in `CentralFreeList::Init` fails, and 0 makes it divide
  by zero (`SizeClasses.SpanSize`, `ClassesUsable`).

## Model

| member | source | states |
|---|---|---|
| SpanLists.Links.Init | _cpp_modules/TCmalloc/gperftools/src/span.cc:73-76 | a header linked to itself is an empty list, and the other lists stay as they are |
| SpanLists.Links.Remove | _cpp_modules/TCmalloc/gperftools/src/span.cc:78-83 | the node leaves exactly the one list it is on; order and all other lists are unchanged |
| SpanLists.Links.Length | _cpp_modules/TCmalloc/gperftools/src/span.cc:85-91 | the walk from the header ends and counts every member once |
| SpanLists.Links.Prepend | _cpp_modules/TCmalloc/gperftools/src/span.cc:93-100 | the node becomes the first member of the list and is on no other list |
| PageLayout.SpansDisjoint | _cpp_modules/TCmalloc/gperftools/src/page_heap.cc:333-336 | live spans have no page in common |
| PageLayout.NeighbourLookups | _cpp_modules/TCmalloc/gperftools/src/page_heap.cc:333-384 | looking up the page before and the page after a live span gives NULL or the live span that is adjacent there, never a stale or recycled descriptor, although entries inside spans may be stale |
| PageLayout.EndsLookup | _cpp_modules/TCmalloc/gperftools/src/page_heap.h:259-264 | the page map leads from the first and the last page of every live span to that span |
| PageLayout.CutMapped | _cpp_modules/TCmalloc/gperftools/src/page_heap.cc:263-304 | cutting a span in two and recording only the new ends keeps the boundary entries right |
| PageLayout.JoinMapped | _cpp_modules/TCmalloc/gperftools/src/page_heap.cc:376-396 | joining two adjacent spans and recording only the new ends keeps the boundary entries right |
| FreeSpans.MergedSettled | _cpp_modules/TCmalloc/gperftools/src/page_heap.cc:361-397 | one look to the left and one to the right leave no neighbour that could still be merged |
| FreeSpans.CarveCoalesced | _cpp_modules/TCmalloc/gperftools/src/page_heap.cc:263-304 | Carve lists its remainder without coalescing, and coalescing stays maximal all the same |
| HeapState.CarvePartSound | _cpp_modules/TCmalloc/gperftools/src/page_heap.cc:263-304 | carving the first pages of a free span keeps the whole heap invariant: layout, page map, lists, coalescing and books |
| HeapState.CarveWholeSound | _cpp_modules/TCmalloc/gperftools/src/page_heap.cc:263-304 | so does taking a free span whole |
| HeapState.AbsorbSound | _cpp_modules/TCmalloc/gperftools/src/page_heap.cc:365-397 | absorbing a free neighbour keeps the invariant while the merged span is between two lists |
| HeapState.RelistSound | _cpp_modules/TCmalloc/gperftools/src/page_heap.cc:399-407 | putting a settled span on the list of its length restores the invariant |
| HeapState.ReleaseSound | _cpp_modules/TCmalloc/gperftools/src/page_heap.cc:463-476 | moving a decommitted span from a normal to a returned list keeps the invariant |
| HeapState.SplitSound | _cpp_modules/TCmalloc/gperftools/src/page_heap.cc:229-245 | Split keeps the invariant |
| HeapState.RegisterSound | _cpp_modules/TCmalloc/gperftools/src/page_heap.cc:525-535 | recording every inner page of a size-class span keeps the invariant |
| HeapState.RefusedMerge | _cpp_modules/TCmalloc/gperftools/src/page_heap.cc:399-407 | in the middle of an aggressive merge, going on after a refusal keeps the byte totals right if and only if no page of the merged span had been decommitted, which is what temp_committed counts |
| HeapState.Conservation | _cpp_modules/TCmalloc/gperftools/src/page_heap.cc:247-430 | pages in use, on normal lists and on returned lists tile the managed pages; the byte counters equal the page sums, and committed plus unmapped bytes equal system bytes |
| HeapState.ObtainedTiled | _cpp_modules/TCmalloc/gperftools/src/page_heap.cc:597-651 | together with the pages lost to a failed extension of the page map they tile everything the system has handed out, and the bytes add up to the system bytes; without such a failure they do so by themselves |
| HeapState.MaximalCoalescing | _cpp_modules/TCmalloc/gperftools/src/page_heap.cc:323-328 | two adjacent free spans always differ in location, so there are none in aggressive mode and none once no normal span is left |
| HeapState.StatsNonnegative | _cpp_modules/TCmalloc/gperftools/src/page_heap.h:145-151 | free, unmapped and committed bytes never go negative, and free bytes are zero exactly when no span is on a normal list |
| PageHeaps.PageHeap.constructor | _cpp_modules/TCmalloc/gperftools/src/page_heap.cc:65-79 | the empty heap satisfies the invariant; nothing is obtained, and nothing is lost |
| PageHeaps.PageHeap.SearchFreeAndLargeLists | _cpp_modules/TCmalloc/gperftools/src/page_heap.cc:81-112 | within the limit, a span is found if and only if any free span is long enough, and it is the best fit, the first of the normal list before the first of the returned list; beyond it, unless the system refuses, if and only if the best fit is a normal span or returning all free pages meets the limit |
| PageHeaps.PageHeap.FindFree | _cpp_modules/TCmalloc/gperftools/src/page_heap.cc:116-153 | if nothing fits and much is free in pieces, all normal spans are returned, unless the system refuses, before the search is given up; otherwise nothing is changed by it |
| PageHeaps.PageHeap.New | _cpp_modules/TCmalloc/gperftools/src/page_heap.cc:116-169 | a span of exactly n pages in use, every other span in use unchanged; without a heap limit NULL if and only if nothing fits and the request is absurd, the system refused both requests, or the page map could not be extended; the system is asked only if nothing fits, even after coalescing a fragmented heap; the result is the best fit of the heap as it was, or as releasing or growing left it; pages are lost only with a NULL result |
| PageHeaps.PageHeap.BetterOf | _cpp_modules/TCmalloc/gperftools/src/page_heap.cc:171-193 | the scan of one large list keeps the span that is least by length and then by address |
| PageHeaps.PageHeap.AllocLarge | _cpp_modules/TCmalloc/gperftools/src/page_heap.cc:171-227 | within the limit, the best of the two large lists; in any case, exactly when a span is found, and exactly when the assertion on bestNormal fails: a normal span would do, a returned one is better, and the limit cannot be met or the system refuses; it recurses at most once |
| PageHeaps.BestNormalLeft | _cpp_modules/TCmalloc/gperftools/src/page_heap.cc:223-224 | heaps of any size in which the assertion on bestNormal fails, both because the limit is exceeded already and because the system refuses |
| PageHeaps.PageHeap.Split | _cpp_modules/TCmalloc/gperftools/src/page_heap.cc:229-245 | the span keeps its first n pages, the rest is a new span in use, and nothing else changes |
| PageHeaps.PageHeap.CommitSpan | _cpp_modules/TCmalloc/gperftools/src/page_heap.cc:247-251 | the pages of the span become backed and are counted as committed |
| PageHeaps.PageHeap.DecommitSpan | _cpp_modules/TCmalloc/gperftools/src/page_heap.cc:253-261 | the pages stop being backed exactly when the system agrees; otherwise nothing changes |
| PageHeaps.PageHeap.Carve | _cpp_modules/TCmalloc/gperftools/src/page_heap.cc:263-304 | a free span becomes a span of exactly n pages in use, and what is left is listed |
| PageHeaps.PageHeap.Delete | _cpp_modules/TCmalloc/gperftools/src/page_heap.cc:306-321 | the span is no longer in use, all other spans in use are unchanged, free extents only grow, and the scavenge counter goes down by its pages |
| PageHeaps.PageHeap.MergeIntoFreeList | _cpp_modules/TCmalloc/gperftools/src/page_heap.cc:330-408 | the span ends on a free list, merged as far as possible, with the books balanced; if the system refuses in aggressive mode, the assertion on temp_committed holds, and the books balance, if and only if no free span was next to the span before |
| PageHeaps.RefusedBreaks | _cpp_modules/TCmalloc/gperftools/src/page_heap.cc:399-407 | a state in the middle of a merge in which a refusal breaks the books |
| PageHeaps.PageHeap.PrependToFreeList | _cpp_modules/TCmalloc/gperftools/src/page_heap.cc:410-420 | the span is listed by its location and length, and its bytes are counted |
| PageHeaps.PageHeap.RemoveFromFreeList | _cpp_modules/TCmalloc/gperftools/src/page_heap.cc:422-430 | the span leaves its list, and its bytes are no longer counted |
| PageHeaps.PageHeap.IncrementalScavenge | _cpp_modules/TCmalloc/gperftools/src/page_heap.cc:432-461 | when the counter has run out, and only then, one normal span is returned if there is one and the system agrees |
| PageHeaps.PageHeap.ReleaseLastNormalSpan | _cpp_modules/TCmalloc/gperftools/src/page_heap.cc:463-476 | just the last span of the list leaves the normal side, and its pages are counted, or the system refused and nothing changed |
| PageHeaps.PageHeap.ReleasePass | _cpp_modules/TCmalloc/gperftools/src/page_heap.cc:478-499 | one round takes the last span of each nonempty normal list, in cyclic order from the release index on, until the request is met or the system refuses, and leaves the index at the next list |
| PageHeaps.PageHeap.ReleaseAtLeastNPages | _cpp_modules/TCmalloc/gperftools/src/page_heap.cc:478-499 | it ends with the request met, no free bytes left, or a refusal; just the spans of the trace have left the normal side, their pages are those counted, and without the last of them the request was not met |
| ReleaseOrder.PagesReturned | _cpp_modules/TCmalloc/gperftools/src/page_heap.cc:478-499 | every page of a span that was released is in a returned span afterwards |
| PageHeaps.PageHeap.EnsureLimit | _cpp_modules/TCmalloc/gperftools/src/page_heap.cc:501-523 | true means that n more pages are within the limit; unless the system refuses, that is so exactly if returning all free pages would suffice; releasing only grows free extents |
| PageHeaps.PageHeap.RegisterSizeClass | _cpp_modules/TCmalloc/gperftools/src/page_heap.cc:525-535 | the span gets its class, and every one of its pages leads to it |
| PageHeaps.PageHeap.GetNextRange | _cpp_modules/TCmalloc/gperftools/src/page_heap.cc:558-587 | something is found exactly if a live span ends above the start; it is the next live span, found through its own page, if and only if the start is not inside a span; from the inside, the entry is one of the span around it |
| PageHeaps.NextInside | _cpp_modules/TCmalloc/gperftools/src/page_heap.cc:558-559 | from the inside of a span the answer is never the next span through its own entry: the entry read is stale or leads back to the span around the start, always the latter in a size-class span |
| PageHeaps.PageHeap.NextBatch | _cpp_modules/TCmalloc/gperftools/src/tcmalloc.cc:545-558 | one hold of the lock, at any time: from a boundary, at most 16 ranges, which are exactly the live spans up to the next page, a boundary again |
| PageHeaps.PageHeap.AllRanges | _cpp_modules/TCmalloc/gperftools/src/tcmalloc.cc:538-561 | starting at page 1, the batches list every live span exactly once, in address order, if the heap does not change between them |
| PageHeaps.MergeBreaks | _cpp_modules/TCmalloc/gperftools/src/page_heap.cc:361-397 | a merge between two batches can leave the saved page inside a span |
| PageHeaps.PageHeap.GrowHeap | _cpp_modules/TCmalloc/gperftools/src/page_heap.cc:597-651 | false without loss if and only if the request is absurd, or both a large request and one for just n pages were over the limit or refused by the system; true means that a free span of at least n pages exists; pages are lost, namely all those just obtained, only if the page map could not be extended, and then the result is false |
| PageHeaps.PageHeap.Request | _cpp_modules/TCmalloc/gperftools/src/page_heap.cc:600-616 | the system is asked exactly if the pages are within the limit, if need be after a release; over the limit means that even returning all free pages would not do, or that the system refused |
| PageHeaps.StaleInside | _cpp_modules/TCmalloc/gperftools/src/page_heap.cc:558-559 | a sound heap in which GetNextRange, started inside a span, reads a descriptor that was deleted |
| PageHeaps.CheckPasses | _cpp_modules/TCmalloc/gperftools/src/page_heap.cc:670-680 | every condition that CheckList demands of a listed span; its upper bound of 1000000000 pages holds while the system has given no more than that |
| CentralState.InitialSane | _cpp_modules/TCmalloc/gperftools/src/central_freelist.cc:47-80 | for a class that can be used as Init asserts, the cache starts with at least one and at most 16 slots, within a maximum of 64 that keeps it to 1 MB of objects or one entry |
| CentralState.ReleaseObject | _cpp_modules/TCmalloc/gperftools/src/central_freelist.cc:104-148 | giving one object back keeps lists, counter and reference counts right |
| CentralState.ReleaseSpan | _cpp_modules/TCmalloc/gperftools/src/central_freelist.cc:130-143 | so does the departure of a span with its last object |
| CentralState.Fetch | _cpp_modules/TCmalloc/gperftools/src/central_freelist.cc:290-318 | so does taking objects from the first nonempty span, which gives some whenever such a span exists |
| CentralState.CarvedWithin | _cpp_modules/TCmalloc/gperftools/src/central_freelist.cc:346-360 | the pieces of a new span are distinct and lie whole within its pages |
| CentralState.Populated | _cpp_modules/TCmalloc/gperftools/src/central_freelist.cc:281-288 | the fetch right after Populate is served by the new span, so no wholly free span is left behind |
| CentralState.PushSlot | _cpp_modules/TCmalloc/gperftools/src/central_freelist.cc:231-244 | a chain goes into the cache only where there is a slot for it |
| CentralLists.CentralFreeList.constructor | _cpp_modules/TCmalloc/gperftools/src/central_freelist.cc:47-80 | the object stands for the initial state |
| CentralLists.CentralFreeList.ReleaseToSpans | _cpp_modules/TCmalloc/gperftools/src/central_freelist.cc:104-148 | on linked lists, exactly one of the two steps of CentralState, chosen by the reference count; no other chain is disturbed |
| CentralLists.CentralFreeList.ReleaseFirst | _cpp_modules/TCmalloc/gperftools/src/central_freelist.cc:82-88 | the next link is read before the object is given back, so the rest of the list survives |
| CentralLists.CentralFreeList.FetchFromOneSpans | _cpp_modules/TCmalloc/gperftools/src/central_freelist.cc:290-318 | cutting the chain gives exactly the objects that CentralState.Grab names, and leaves the rest |
| CentralLists.CentralFreeList.FetchRange | _cpp_modules/TCmalloc/gperftools/src/central_freelist.cc:264-275 | the loop of RemoveRange equals fetching over and over until n objects or nothing more |
| CentralLists.CentralFreeList.PushEntry | _cpp_modules/TCmalloc/gperftools/src/central_freelist.cc:235-240 | the chain is in the next entry of the array and in no other place |
| CentralLists.CentralFreeList.PopEntry | _cpp_modules/TCmalloc/gperftools/src/central_freelist.cc:249-257 | the chain of the last used entry comes out with its head and tail |
| CentralLists.CentralFreeList.AddSpan | _cpp_modules/TCmalloc/gperftools/src/central_freelist.cc:363-367 | the carved span is first on the nonempty list, and all its pieces are counted |
| CentralLists.Carve | _cpp_modules/TCmalloc/gperftools/src/central_freelist.cc:346-360 | the loop links all whole pieces of the span, in order, and no more |
| CentralSafety.Transfer | _cpp_modules/TCmalloc/gperftools/src/central_freelist.cc:104-368 | when objects move from one place to another, every object still is at exactly one place |
| CentralSteps.AcquireStep | _cpp_modules/TCmalloc/gperftools/src/central_freelist.cc:190-197 | taking a free lock keeps the invariant of the protocol |
| CentralSteps.InsertingStep | _cpp_modules/TCmalloc/gperftools/src/central_freelist.cc:231-244 | so does each branch of InsertRange |
| CentralSteps.EvictingStep | _cpp_modules/TCmalloc/gperftools/src/central_freelist.cc:151-165 | so does the choice of a victim, for any value of race_counter |
| CentralSteps.ShrinkingStep | _cpp_modules/TCmalloc/gperftools/src/central_freelist.cc:203-229 | so does ShrinkCache, which turns a slot of the victim into one credit |
| CentralSteps.HomeStep | _cpp_modules/TCmalloc/gperftools/src/central_freelist.cc:167-184 | so does the rest of MakeCacheSpace, which spends the credit at most once |
| CentralSteps.ReleaseObjectStep | _cpp_modules/TCmalloc/gperftools/src/central_freelist.cc:104-148 | so does giving back one object |
| CentralSpans.DropStep | _cpp_modules/TCmalloc/gperftools/src/central_freelist.cc:129-143 | so does giving back the last object of a span: then all its pieces are on its list |
| CentralSpans.DeletingStep | _cpp_modules/TCmalloc/gperftools/src/central_freelist.cc:137-143 | so does handing the span to the page heap without the class lock |
| CentralSteps.RemovingStep | _cpp_modules/TCmalloc/gperftools/src/central_freelist.cc:246-264 | so does the start of RemoveRange |
| CentralSteps.FetchingStep | _cpp_modules/TCmalloc/gperftools/src/central_freelist.cc:265-277 | so does each round of its loop |
| CentralSpans.PopulatingStep | _cpp_modules/TCmalloc/gperftools/src/central_freelist.cc:321-337 | so does any fresh span that the page heap may return, or its refusal |
| CentralSpans.RefillingStep | _cpp_modules/TCmalloc/gperftools/src/central_freelist.cc:321-368 | so does entering the span and fetching from it, after the lock is taken again |
| CentralSteps.ForkStep | _cpp_modules/TCmalloc/gperftools/src/static_vars.cc:55-67 | so does the fork handler |
| CentralTheorems.StepKeeps | _cpp_modules/TCmalloc/gperftools/src/central_freelist.cc:104-368 | every step of every thread keeps the invariant |
| CentralTheorems.RunKeeps | _cpp_modules/TCmalloc/gperftools/src/central_freelist.cc:104-368 | the invariant holds in every state of every interleaving of any number of threads |
| CentralTheorems.MutualExclusion | _cpp_modules/TCmalloc/gperftools/src/central_freelist.h:162-164 | no two threads are ever in sections of the same lock |
| CentralTheorems.CachesBounded | _cpp_modules/TCmalloc/gperftools/src/central_freelist.cc:151-244 | in every interleaving 0 <= used slots <= cache size <= maximum <= 64 for each class, and the cache sizes never add up to more than at the start |
| CentralTheorems.SpansCounted | _cpp_modules/TCmalloc/gperftools/src/central_freelist.cc:104-149 | in every interleaving the counter is the sum of the list lengths, list length plus reference count is the capacity, the reference count is the number of pieces elsewhere, and no listed span is wholly free |
| CentralTheorems.ObjectsKept | _cpp_modules/TCmalloc/gperftools/src/central_freelist.cc:104-368 | in every interleaving each carved object is in exactly one place: its span, one cache entry, one thread, or the callers |
| CentralTheorems.AssertsHold | _cpp_modules/TCmalloc/gperftools/src/central_freelist.cc:106-107 | in every interleaving the assertions of the code hold where a thread is about to rely on them |
| CentralTheorems.WaitsFree | _cpp_modules/TCmalloc/gperftools/src/central_freelist.cc:210-214 | only the fork handler waits for a lock while it holds one |
| CentralTheorems.DeadlockFree | _cpp_modules/TCmalloc/gperftools/src/static_vars.cc:55-67 | in every interleaving, if some thread is inside, some thread that is inside can go on |
| CentralService.RemoveEnds | _cpp_modules/TCmalloc/gperftools/src/central_freelist.cc:246-276 | in every run, RemoveRange hands over all objects asked for, each of its class and from inside; or fewer, but some, when no listed span has any left; or none, when the page heap refused and no listed span has any |
| CentralService.EmptyBefore | _cpp_modules/TCmalloc/gperftools/src/central_freelist.cc:278-288 | the page heap is asked only for a list that was empty when the transfer cache could not serve the call |
| CentralService.AnsweredBefore | _cpp_modules/TCmalloc/gperftools/src/central_freelist.cc:320-335 | a thread comes back from the page heap only with its answer, a new span or none |
| CentralService.NothingRemoved | _cpp_modules/TCmalloc/gperftools/src/central_freelist.cc:278-288 | in every run, a call of RemoveRange that returns nothing found the list empty, then asked the page heap and was refused |
| CentralService.ChainStored | _cpp_modules/TCmalloc/gperftools/src/central_freelist.cc:167-244 | in every run, a chain of full length is stored whenever a slot is free, or one was won and the cache may still grow; otherwise an unforced and then a forced eviction is tried before it is given back |
| CentralService.VictimPossible | _cpp_modules/TCmalloc/gperftools/src/central_freelist.cc:151-165 | in every run, a thread that looks for a victim can get to any class but its own |
| CentralService.SlotWon | _cpp_modules/TCmalloc/gperftools/src/central_freelist.cc:203-229 | in every run, ShrinkCache takes exactly one slot from its victim, if there is one and, unless forced, a free one; a chain in the way is given back to its spans |
| CentralTheorems.PagesFresh | _cpp_modules/TCmalloc/gperftools/src/central_freelist.cc:320-338 | a span from the page heap is none of those the central lists have, and shares no page with any of them: what the protocol assumes of the page heap |
| LinkedLists.Memory.Push | _cpp_modules/TCmalloc/gperftools/src/linked_list.h:52-55 | the element is in front of the list |
| LinkedLists.Memory.Pop | _cpp_modules/TCmalloc/gperftools/src/linked_list.h:57-61 | the first element comes off |
| LinkedLists.Memory.PopRange | _cpp_modules/TCmalloc/gperftools/src/linked_list.h:67-84 | the first N elements become a list of their own with the right end, also for N = 0 |
| LinkedLists.Memory.PushRange | _cpp_modules/TCmalloc/gperftools/src/linked_list.h:86-90 | the first list is in front of the second; an empty one changes nothing |
| LinkedLists.Memory.Size | _cpp_modules/TCmalloc/gperftools/src/linked_list.h:92-99 | the walk counts the elements |
| AddressMaps.HashInt | _cpp_modules/TCmalloc/gperftools/src/addressmap-inl.h:203-207 | the hash value is an index of the table |
| AddressMaps.AddressMap.LookupCluster | _cpp_modules/TCmalloc/gperftools/src/addressmap-inl.h:214-222 | the chain walk finds the cluster of an address if it exists, and NULL otherwise |
| AddressMaps.AddressMap.FindCluster | _cpp_modules/TCmalloc/gperftools/src/addressmap-inl.h:214-233 | creating a cluster changes no pair of the table |
| AddressMaps.AddressMap.FindMutable | _cpp_modules/TCmalloc/gperftools/src/addressmap-inl.h:295-306 | the entry of the key if it is in the table, and NULL otherwise |
| AddressMaps.AddressMap.Insert | _cpp_modules/TCmalloc/gperftools/src/addressmap-inl.h:309-338 | the table is updated at the key, whether it was there or not |
| AddressMaps.AddressMap.FindAndRemove | _cpp_modules/TCmalloc/gperftools/src/addressmap-inl.h:341-357 | the key leaves the table and its value is returned, or nothing changes; the entry goes to the free list |
| AddressMaps.AddressMap.FindInside | _cpp_modules/TCmalloc/gperftools/src/addressmap-inl.h:360-403 | it ends and returns only a range that holds the key or starts at it; over ranges that do not overlap it returns NULL exactly when no such range starts within reach |
| AddressMaps.WithinReach | _cpp_modules/TCmalloc/gperftools/src/addressmap-inl.h:386-401 | a start at most max_size below the key is within reach |
| AddressMaps.SmallerStops | _cpp_modules/TCmalloc/gperftools/src/addressmap-inl.h:380-384 | the early exit on a smaller key is right: it separates the key from all lower ranges |
| AddressMaps.AddressMap.Iterate | _cpp_modules/TCmalloc/gperftools/src/addressmap-inl.h:407-420 | the callback runs exactly once for each key, with that key's entry |
| HeapProfiles.HeapProfileTable.RecordAlloc | _cpp_modules/TCmalloc/gperftools/src/heap-profile-table.cc:210-223 | the object is recorded with both flags clear |
| HeapProfiles.HeapProfileTable.RecordFree | _cpp_modules/TCmalloc/gperftools/src/heap-profile-table.cc:225-234 | the object is no longer recorded |
| HeapProfiles.HeapProfileTable.FindInsideAlloc | _cpp_modules/TCmalloc/gperftools/src/heap-profile-table.cc:253-261 | a pointer is resolved to the object whose range holds it, if there is one within reach |
| HeapProfiles.HeapProfileTable.MarkAsLive | _cpp_modules/TCmalloc/gperftools/src/heap-profile-table.cc:263-270 | true exactly when a recorded object was not live; then its live bit, and nothing else, changes |
| HeapProfiles.HeapProfileTable.MarkAsIgnored | _cpp_modules/TCmalloc/gperftools/src/heap-profile-table.cc:272-277 | the ignore bit of a recorded object is set, and nothing else changes |
| HeapProfiles.HeapProfileTable.AddIfNonLive | _cpp_modules/TCmalloc/gperftools/src/heap-profile-table.cc:425-436 | one entry: its live bit is cleared, or it is saved unless the base has it |
| HeapProfiles.HeapProfileTable.NonLiveSnapshot | _cpp_modules/TCmalloc/gperftools/src/heap-profile-table.cc:502-517 | the result holds exactly the recorded objects that are not marked and not in the base, and every live bit is clear afterwards |
| HeapProfiles.Snapshot.Add | _cpp_modules/TCmalloc/gperftools/src/heap-profile-table.h:384-388 | the object is in the snapshot, and the counts of objects and of bytes are those of all objects in it |
| HeapProfiles.Snapshot.Empty | _cpp_modules/TCmalloc/gperftools/src/heap-profile-table.h:364-366 | the counts are zero exactly when the snapshot has no object |
| HeapProfiles.ResolvesOnce | _cpp_modules/TCmalloc/gperftools/src/heap-profile-table.cc:253-261 | over objects that do not overlap a pointer resolves to at most one |
| HeapProfiles.LargestFindsAll | _cpp_modules/TCmalloc/gperftools/src/heap-checker.cc:196-209 | with the size of the largest object as limit every pointer into an object resolves |
| LeakChecks.BoundsSuffice | _cpp_modules/TCmalloc/gperftools/src/heap-checker.cc:1451-1465 | the cheap comparison with the lowest and highest heap address rejects no pointer that resolves |
| LeakChecks.LeakChecker.NewHook | _cpp_modules/TCmalloc/gperftools/src/heap-checker.cc:567-593 | the object is recorded, and the bounds and the largest size stay right, also while checking is off |
| LeakChecks.LeakChecker.DeleteHook | _cpp_modules/TCmalloc/gperftools/src/heap-checker.cc:595-603 | the object is no longer recorded, if checking is on |
| LeakChecks.LeakChecker.TryPointer | _cpp_modules/TCmalloc/gperftools/src/heap-checker.cc:1466-1497 | a word marks and pushes exactly the object it resolves to, if that was not live |
| LeakChecks.LeakChecker.Sweep | _cpp_modules/TCmalloc/gperftools/src/heap-checker.cc:1407-1499 | afterwards everything that an aligned word of the range points to is live |
| LeakChecks.LeakChecker.IgnoreLiveObjectsLocked | _cpp_modules/TCmalloc/gperftools/src/heap-checker.cc:1392-1507 | the flood ends; the live objects are then exactly those live before and those that a chain of aligned words reaches from the stack through objects that were not live, and the new ones are counted |
| LeakChecks.LeakChecker.DisabledObjects | _cpp_modules/TCmalloc/gperftools/src/heap-checker.cc:727-734 | the objects allocated while checking was disabled become roots, all of them and no others |
| LeakChecks.LeakChecker.IgnoreAllLiveObjectsLocked | _cpp_modules/TCmalloc/gperftools/src/heap-checker.cc:1261-1355 | after all groups of roots, live means reachable from any root, and the size limit is restored |
| LeakChecks.LeakChecker.FindLeaks | _cpp_modules/TCmalloc/gperftools/src/heap-checker.cc:1765-1774 | the leaks are exactly the recorded objects that no root reaches and that the base does not list |
| LeakChecks.IgnoredReachable | _cpp_modules/TCmalloc/gperftools/src/heap-profile-table.h:175-179 | an object allocated while checking was disabled is reachable, hence never a leak |
| LeakChecks.LooserReaches | _cpp_modules/TCmalloc/gperftools/src/heap-checker.cc:1787-1808 | reading pointers at every address, or farther into objects, never adds a leak |
| Reachability.FloodFound | _cpp_modules/TCmalloc/gperftools/src/heap-checker.cc:1471-1495 | finding an object keeps the two halves of the flood's invariant: all marks are justified, nothing is forgotten |
| Reachability.FloodDone | _cpp_modules/TCmalloc/gperftools/src/heap-checker.cc:1397-1402 | a range may be forgotten once its targets are live |
| Reachability.FloodEnd | _cpp_modules/TCmalloc/gperftools/src/heap-checker.cc:1397-1500 | when the stack is empty, live is exactly the old live set and what is reachable |
| Reachability.ClosedReach | _cpp_modules/TCmalloc/gperftools/src/heap-checker.cc:1403-1406 | not rescanning live objects loses nothing, because what they point to is live already |
| Reachability.FloodAfter | _cpp_modules/TCmalloc/gperftools/src/heap-checker.cc:1093-1140 | floods from one group of roots after another equal one flood from all |
| MemoryRegions.RemovalCovers | _cpp_modules/TCmalloc/gperftools/src/memory_region_map.cc:685-744 | exactly which addresses are covered after a removal |
| MemoryRegions.RemovalExact | _cpp_modules/TCmalloc/gperftools/src/memory_region_map.cc:685-744 | only the removed range loses its coverage if and only if no single region holds it strictly inside |
| MemoryRegions.SplitLoses | _cpp_modules/TCmalloc/gperftools/src/memory_region_map.cc:702-716 | a removal inside one region loses the part in front as well |
| MemoryRegions.RemovalOrdered | _cpp_modules/TCmalloc/gperftools/src/memory_region_map.cc:685-744 | the regions stay disjoint and ordered by their ends |
| MemoryRegions.RemovalKeeps | _cpp_modules/TCmalloc/gperftools/src/memory_region_map.cc:685-744 | what is left of a region keeps its call stack and its stack flag |
| MemoryRegions.MemoryRegionMap.RecordRegionRemoval | _cpp_modules/TCmalloc/gperftools/src/memory_region_map.cc:676-752 | the loop over the set computes CutAll, with the iterator on the right region after each insertion and erasure |
| MemoryRegions.SplitBound | _cpp_modules/TCmalloc/gperftools/src/memory_region_map.cc:445-456 | in the split arm lower_bound finds the region itself, so the front part is taken for a known part |
| MemoryRegions.MemoryRegionMap.DoInsertRegion | _cpp_modules/TCmalloc/gperftools/src/memory_region_map.cc:445-474 | a region is inserted in the order of ends unless the region found by lower_bound starts no later or has the same end |
| MemoryRegions.MemoryRegionMap.RecordRegionAddition | _cpp_modules/TCmalloc/gperftools/src/memory_region_map.cc:582-634 | a new region, or a part of a known one, adds exactly its own addresses; the region is ignored if and only if it is a part of a known one or one with the same end starts later, and the regions stay disjoint if and only if it is ignored or nothing overlaps |
| MemoryRegions.OverlapAdded | _cpp_modules/TCmalloc/gperftools/src/memory_region_map.cc:445-474 | two regions that overlap once both are recorded |
| MemoryRegions.EndTaken | _cpp_modules/TCmalloc/gperftools/src/memory_region_map.cc:445-474 | a region that is ignored although its first address is not covered |
| MemoryRegions.MemoryRegionMap.FindRegion | _cpp_modules/TCmalloc/gperftools/src/memory_region_map.cc:335-350 | a region is found if and only if the address is covered and no region ends exactly there |
| MemoryRegions.AdjacentMissed | _cpp_modules/TCmalloc/gperftools/src/memory_region_map.cc:335-350 | a covered address that is not found, because a region ends where the next one starts |
| MemoryRegions.MemoryRegionMap.FindAndMarkStackRegion | _cpp_modules/TCmalloc/gperftools/src/memory_region_map.cc:360-375 | the region found is marked, and nothing else changes |
| MemoryRegions.LessExact | _cpp_modules/TCmalloc/gperftools/src/heap-checker.cc:1186-1215 | subtracting one region from one range leaves exactly the addresses outside the region |
| MemoryRegions.SubtractOne | _cpp_modules/TCmalloc/gperftools/src/heap-checker.cc:1186-1215 | so for all ranges of a library |
| MemoryRegions.FilterRanges | _cpp_modules/TCmalloc/gperftools/src/heap-checker.cc:1158-1221 | after all regions, exactly the original addresses outside every subtracted region remain |
| ProfileStream.RoundTrip | _cpp_modules/TCmalloc/gperftools/src/profiledata.cc:66-78 | header, samples and trailer are read back exactly, whatever follows |
| ProfileStream.UniquelyDecoded | _cpp_modules/TCmalloc/gperftools/src/profiledata.cc:165-197 | two finished profiles with the same slots have the same period, samples and end |
| ProfileCollector.ProfileData.Start | _cpp_modules/TCmalloc/gperftools/src/profiledata.cc:92-130 | an empty profile with its header in the buffer, or nothing if the file cannot be opened or collection is on |
| ProfileCollector.ProfileData.FlushEvicted | _cpp_modules/TCmalloc/gperftools/src/profiledata.cc:324-332 | the buffer goes to the file, and file and buffer together stay the same |
| ProfileCollector.ProfileData.Evict | _cpp_modules/TCmalloc/gperftools/src/profiledata.cc:66-78 | the sample is appended to the stream, and the buffer never overflows |
| ProfileCollector.ProfileData.Add | _cpp_modules/TCmalloc/gperftools/src/profiledata.cc:261-320 | exactly one more occurrence of exactly the truncated stack is counted: by its own entry if its bucket has one, and otherwise by an entry with the least count, which is evicted if it was in use |
| ProfileCollector.TruncatedPrefix | _cpp_modules/TCmalloc/gperftools/src/profiledata.cc:266 | the first 64 frames, or all |
| ProfileCollector.Smallest | _cpp_modules/TCmalloc/gperftools/src/profiledata.cc:301-307 | the entry that makes room has the least count of its bucket |
| ProfileCollector.StillConserved | _cpp_modules/TCmalloc/gperftools/src/profiledata.cc:261-320 | counts in the stream and in the table equal the number of calls, for every stack |
| ProfileCollector.ProfileData.FlushTable | _cpp_modules/TCmalloc/gperftools/src/profiledata.cc:240-259 | everything counted is in the file, and the table is empty |
| ProfileCollector.ProfileData.Stop | _cpp_modules/TCmalloc/gperftools/src/profiledata.cc:165-197 | the file decodes to samples whose counts are exactly the numbers of calls since Start |
| ProfileCollector.ProfileData.Reset | _cpp_modules/TCmalloc/gperftools/src/profiledata.cc:199-218 | collection is off, and table and buffer are gone |
| FreeQueues.FreeQueue.Full | _cpp_modules/TCmalloc/gperftools/src/debugallocation.cc:172-174 | full means 1023 entries |
| FreeQueues.FreeQueue.Push | _cpp_modules/TCmalloc/gperftools/src/debugallocation.cc:176-179 | the entry is last in the ring, also around the end of the array |
| FreeQueues.FreeQueue.Pop | _cpp_modules/TCmalloc/gperftools/src/debugallocation.cc:181-186 | the oldest entry comes out |
| FreeQueues.FreeQueue.Size | _cpp_modules/TCmalloc/gperftools/src/debugallocation.cc:188-190 | the number of entries in the ring |
| FreeQueues.PushStep | _cpp_modules/TCmalloc/gperftools/src/debugallocation.cc:588-597 | the queue is not full when a block is to be pushed |
| FreeQueues.PopStep | _cpp_modules/TCmalloc/gperftools/src/debugallocation.cc:599-609 | the queue is not empty when an entry is to be popped, and the batch has room |
| FreeQueues.StepKeeps | _cpp_modules/TCmalloc/gperftools/src/debugallocation.cc:581-626 | every step of every thread keeps the invariant |
| FreeQueues.QueueKept | _cpp_modules/TCmalloc/gperftools/src/debugallocation.cc:581-626 | in every interleaving: with the lock free the queue is not full, the recorded size is the sum of the entries, removal is first in first out, and each block is queued, in one batch, or freed, once |
| FreeQueues.PoppedWhen | _cpp_modules/TCmalloc/gperftools/src/debugallocation.cc:599-609 | in every interleaving, an entry is popped if and only if a thread in the loop finds the queue above its limit or full |
| FreeQueues.PushedAndFreed | _cpp_modules/TCmalloc/gperftools/src/debugallocation.cc:581-626 | in every interleaving, a block handed in becomes the last entry with its cost, popped blocks are freed in order, and a call ends only when none is left |
| FreeQueues.CallMeetsLimit | _cpp_modules/TCmalloc/gperftools/src/debugallocation.cc:599-626 | in every interleaving, before a call ends its thread has left the loop with the queue within its limit and not full |
| FreeQueues.ChecksPass | _cpp_modules/TCmalloc/gperftools/src/debugallocation.cc:581-626 | in every interleaving none of the run-time checks fires |
| PageMaps.IndexUnique | _cpp_modules/TCmalloc/gperftools/src/pagemap.h:145-152 | leaf number and index in the leaf determine the key |
| PageMaps.QuotRem | _cpp_modules/TCmalloc/gperftools/src/pagemap.h:145-152 | shift and mask are quotient and remainder |
| PageMaps.PageMap2.KeyRange | _cpp_modules/TCmalloc/gperftools/src/pagemap.h:145-152 | exactly the keys below 2^BITS have an entry in the root |
| PageMaps.PageMap2.Set | _cpp_modules/TCmalloc/gperftools/src/pagemap.h:154-159 | the value of that key, and of no other, changes |
| PageMaps.PageMap2.Ensure | _cpp_modules/TCmalloc/gperftools/src/pagemap.h:161-181 | success, exactly when no allocation fails and the last key is in range, gives room for all keys of the range; no value changes either way |
| PageMaps.PageMap2.Next | _cpp_modules/TCmalloc/gperftools/src/pagemap.h:188-204 | the value of the least set key at or above k, or NULL if there is none |
| PageMaps.PageMap3.KeyRange | _cpp_modules/TCmalloc/gperftools/src/pagemap.h:248-257 | exactly the keys below 2^BITS have an entry in the root |
| PageMaps.PageMap3.Set | _cpp_modules/TCmalloc/gperftools/src/pagemap.h:259-265 | the value of that key, and of no other, changes |
| PageMaps.PageMap3.Ensure | _cpp_modules/TCmalloc/gperftools/src/pagemap.h:267-295 | as for two levels |
| PageMaps.PageMap3.Next | _cpp_modules/TCmalloc/gperftools/src/pagemap.h:300-321 | as for two levels |
| SizeClasses.LgFloor | _cpp_modules/TCmalloc/gperftools/src/common.cc:63-75 | the position of the highest bit |
| SizeClasses.AlignmentForSize | _cpp_modules/TCmalloc/gperftools/src/common.cc:77-97 | the alignment as a function of size and page size |
| SizeClasses.AlignmentPower | _cpp_modules/TCmalloc/gperftools/src/common.cc:77-97 | the alignment is a power of two, an eighth of the power of two below the size, but at most a page |
| SizeClasses.AlignmentChecks | _cpp_modules/TCmalloc/gperftools/src/common.cc:94-95 | sizes of 16 bytes and more are aligned to 16, sizes above 1024 to 128 |
| SizeClasses.NextSize | _cpp_modules/TCmalloc/gperftools/src/common.cc:139-141 | each size that Init tries is a multiple of its alignment, and the last is exactly kMaxSize |
| SizeClasses.SpanSize | _cpp_modules/TCmalloc/gperftools/src/common.cc:143-155 | the two nested loops end with the least number of pages whose waste is at most an eighth and which holds a quarter of a transfer |
| SizeClasses.NegativeLimit | _cpp_modules/TCmalloc/gperftools/src/common.cc:143-155 | with a transfer limit of -4 or less the outer loop can never end |
| SizeClasses.NumMoveBounds | _cpp_modules/TCmalloc/gperftools/src/common.cc:100-119 | at least two objects unless the limit is lower, at most the limit, and otherwise as many as 64 KB hold |
| SizeClasses.ComputeClasses | _cpp_modules/TCmalloc/gperftools/src/common.cc:135-175 | class sizes rise up to kMaxSize on the boundaries of the index, and meet the bounds on waste and number of objects; they are exactly the grouping of the tried sizes in which a size joins the class before it if and only if it needs as many pages and loses no object |
| SizeClasses.GroupingUnique | _cpp_modules/TCmalloc/gperftools/src/common.cc:135-175 | the tried sizes and the rule for joining leave only one result |
| SizeClasses.SameEntry | _cpp_modules/TCmalloc/gperftools/src/common.h:197-215 | sizes that share an entry of the array, on either side of 1024, need the same class |
| SizeClasses.SizeMap.FillArray | _cpp_modules/TCmalloc/gperftools/src/common.cc:181-189 | every size up to kMaxSize is sent to the smallest class that holds it |
| SizeClasses.SizeMap.DoubleCheck | _cpp_modules/TCmalloc/gperftools/src/common.cc:191-212 | the double check at the end never finds a fault |
| SizeClasses.SizeMap.Init | _cpp_modules/TCmalloc/gperftools/src/common.cc:122-218 | all of this, unless the number of classes differs from the expected one |
| SizeClasses.ClassesUsable | _cpp_modules/TCmalloc/gperftools/src/common.cc:143-155 | the spans of every class hold at least one object and a quarter of a transfer; the number of objects to move is positive, as CentralFreeList::Init asserts, if and only if the transfer limit is |

## Left out

- Machine overflow, except the hash values, the wrap-around of an empty range in `Ensure`, and the unsigned comparison in `SizeMap::Init`: numbers are unbounded.
- Page sizes other than 8192 bytes in the page heap and the central lists; the size-class table is for any page size of at least 128 bytes.
- The sampler, the thread cache, the emergency arena, `tcmalloc.cc` but for IterateOverRanges, spinlock internals and LowLevelAlloc: locks are atomic, allocation is fresh memory or NULL.
- The scavenge delay is floating point; when IncrementalScavenge releases is left to chance.
- The cache from pages to size classes, sampled-object and growth-stack lists, and GetSmallSpanStats and GetLargeSpanStats, which only count.
- PageHeaps.PageHeap.MergeIntoFreeList: what happens after a refusal in aggressive mode; the other methods are for a heap whose system always agrees in that mode, as the code needs it to.
- PageHeaps.PageHeap.AllRanges: only while the heap does not change between batches; PageHeaps.PageHeap.NextBatch says what each batch does in any case.
- PageHeaps.PageHeap.GetNextRange: the fraction of a size-class span that is in use, which is floating point.
- PageHeaps.PageHeap.New: with a heap limit, NULL after the heap has grown is not excluded; when the searches fail with a limit is in PageHeaps.PageHeap.SearchFreeAndLargeLists, when growing fails in PageHeaps.PageHeap.GrowHeap.
- CentralTheorems.DeadlockFree: some thread can always go on; that a given thread gets its lock is a matter of the lock and not stated.
- In the protocol of the central lists a page-heap call is one step under the page-heap lock, and the unlocked check of ShrinkCache may come out either way, which covers every race in it.
- LeakChecks.LeakChecker.IgnoreLiveObjectsLocked: recorded objects must not overlap, and a root that names a heap object must have its size, as the checker's own fatal checks demand.
- Stacks, registers and global data reach the leak checker as given ranges, and memory as a function from addresses to words; thread listing and the parsing of the process map are not part of this model.
- Call stacks, buckets and their statistics in the heap profile and in the region map, and the writing of reports.
- The buffering of recursive calls in the region map: recursive_insert is false, and allocation does not call back.
- AddressMaps: `key + size` is not cut to a machine word.
- ProfileCollector.ProfileData.Add: counts do not wrap; the table is a signal handler's, and Add is not re-entered.
- FreeQueues: the contents of a block and the check for writes to it after it was freed; the size of a queue entry is a parameter, and the limit is not negative.
- TCMalloc_PageMap1, the flat array, is what the other two are shown to behave like and has no model of its own.
