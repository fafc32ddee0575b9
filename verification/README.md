# Verified model of the memory management simulator

The simulator has three memory allocators, a three-level cache hierarchy, and a virtual memory unit with a TLB, a flat or
four-level page table and three page replacement policies. This project models each of them in Dafny and proves what it
promises. `dafny verify dfyconfig.toml` checks everything.

Each component comes in two layers. A *value model* is a datatype with functions; the theorems about whole runs are lemmas
about it. The *objects* are classes in the form of the program, with its linked lists, loops and bit arithmetic; every
method is proved to compute the functions of the value model, so the theorems hold of the objects.

| component | value model and theorems | objects |
|---|---|---|
| virtual memory | `Mmu`, `MmuRuns`, `MmuLru`, `MmuFifo`, `MmuClock`, `MmuPages`, `TlbLru`, `TlbTrace` | `VirtualMemory`, `Tlb`, `PageTable`, `Machine` |
| caches | `CacheModel`, `CacheContents`, `CacheRecency`, `CacheLru`, `CacheFifo`, `CacheHistory`, `CacheTraffic`, `MemorySystem`, `MemoryLru`, `MemoryHistory` | `Cache`, `Machine` |
| buddy allocator | `BuddyTree`, `BuddyModel`, `BuddyAnswers` | `BuddyRounding`, `BuddyAllocator` |
| slab allocator | `SlabModel`, `SlabProtocol` (interleaved threads), `SlabRuns`, `SlabCalls`, `SlabAnswers` | `SlabAllocator` |
| linear allocator | `LinearModel`, `LinearAnswers` | `LinearAllocator` |
| shared | `Common`, `Bits`, `Ways`, `Recency` | |

How the parts fit together:

- The reference memory unit `Mmu` has no TLB, and its page table is the map of the resident pages. The class
  `VirtualMemory`, with any TLB and either page table, refines it. That one refinement gives TLB transparency, equality of
  the two paging modes, and the LRU, FIFO and CLOCK theorems for the program.
- The radix tree is a map from table keys (level and leading indices) to nodes; what a page number maps to is read off it.
- The caches on values are timestamped sets; under LRU they are proved to run in step with move-to-front lists. The machine
  of MMU and caches carries a history of which page each line was fetched for and when; the hardware does not store it.
- Buddy blocks are nodes of a binary tree, and the invariant is that free and used blocks tile the root with no two free
  siblings. Free lists keep their order in the model, so the heap lists are matched exactly.
- The slab allocator is a state machine of threads that stop at every lock operation. Sequential calls are proved to be
  uninterrupted runs of one thread, and the class refines the sequential calls.

Parameters of the model: number of frames and pages, TLB and cache geometry, policies, paging mode, pool sizes and number
of threads. Fixed as in the program: page size 64, four levels of 512 entries, slab size 1024 and the seven size classes.

Inputs from outside: the mmap manager appears as a verdict per access (no region, allowed, denied).

Where program and documentation differ, the model follows the program:

- The comment on index extraction in `src/MultiLevelPageTable.cpp:11-15` speaks of 3, 5, 5 and 5 bits; the code uses 9 each.
- `src/MultiLevelPageTable.h:12-13` speaks of 4 KB pages; page numbers are addresses divided by 64.
- `src/SlabAllocator.h:132` says that the pool lock guards the id map; the code guards it with a lock of its own.
- `src/Cache.cpp:172` calls the write-back recursive; it probes the next level once.

## Model

| member | source | states |
|---|---|---|
| Machine.TranslateAll | src/VirtualMemory.cpp:221-333 | TLB transparency over whole traces: on a fresh unit, in either mode and with any TLB, every translation of a trace returns what the TLB-free reference unit returns, and page table, frame table, free list, clock hand and counters end as there; the TLB ends as the trace's services and shootdowns leave it (`TlbTrace.RunOps`), and each report is given in its case |
| Machine.RunFresh | src/VirtualMemory.cpp:73-333 | the same from construction on, with TLB entries and ways, frame count, page count, policy and mode as free parameters, and spelled out: which accesses get an address (not denied, and below the limit or in an allowed region in four-level mode), and which of the six reports each access gets; a TLB hit exactly for a page that is among the resident pages of its TLB set used last |
| Machine.CompareModes | src/VirtualMemory.cpp:221-333 | one trace with flat and with four-level paging, each with a TLB of its own shape, gives the same physical addresses and the same end: resident pages and their frames, free frames, clock hand, hits, faults and disk accesses |
| Machine.ReadOrWrite | main.cpp:205-228 | a read or write is translate, then request of the physical address: one step of the reference machine of MMU and caches, with the address and the hit level or miss that the reference gives |
| Machine.RunMachine | main.cpp:205-228 | a whole trace of reads and writes on the objects ends in the state of the reference machine and finds each access's data at the level where the reference does, so `MemorySystem.NoStaleData` speaks of the objects |
| Machine.RunFromStart | main.cpp:35-41 | three cache levels, unit and TLB put together from new parts in any mode and geometry: after every trace no cached line is stale, and each access found its data where the reference machine finds it; under LRU that is where move-to-front lists without time find it; the machine exists exactly when no cache constructor throws |
| VirtualMemoryUnit.VirtualMemory.Translate | src/VirtualMemory.cpp:221-333 | one translation is one step of the reference unit (state and result), keeps TLB and page table coherent, sweeps exactly the frame that changes hands from the caches, and gives each report exactly in its case; the translation it returns is in the TLB afterwards, and the TLB's table and clock move by one service, after the shootdown of the page that loses its frame |
| VirtualMemoryUnit.VirtualMemory.constructor | src/VirtualMemory.cpp:73-83 | a new unit is the fresh reference state: nothing mapped, all frames free in ascending order |
| VirtualMemoryUnit.VirtualMemory.BuildFreeList | src/VirtualMemory.cpp:79-82 | the linked free list holds the frames 0, 1, 2, ... in this order |
| VirtualMemoryUnit.VirtualMemory.SetMultiLevelPaging | src/VirtualMemory.cpp:94-103 | choosing the mode before anything is mapped keeps the state |
| VirtualMemoryUnit.VirtualMemory.SetReplacementPolicy | src/VirtualMemory.cpp:106-108 | only the policy changes |
| VirtualMemoryUnit.VirtualMemory.FindFreeFrame | src/VirtualMemory.cpp:111-120 | takes the head of the free list, -1 exactly when the list is empty |
| VirtualMemoryUnit.VirtualMemory.SelectOldest | src/VirtualMemory.cpp:132-154 | with all frames in use the scan finds the first frame with the smallest access or load time, in both paging modes |
| VirtualMemoryUnit.VirtualMemory.SweepClock | src/VirtualMemory.cpp:155-190 | with all frames in use the sweep finds the reference victim within frames + 1 attempts, so the cutoff at twice the frames is never met; reference bits and hand end as in the reference unit |
| VirtualMemoryUnit.VirtualMemory.EvictPage | src/VirtualMemory.cpp:128-218 | eviction is the reference eviction: victim, table, frame table, hand, disk count, TLB shootdown and cache sweep; -1 exactly when there are no frames |
| VirtualMemoryUnit.VirtualMemory.Remove | src/VirtualMemory.cpp:194-217 | the victim leaves TLB, caches and page table, and a dirty one costs a disk access |
| VirtualMemoryUnit.VirtualMemory.LookupPage | src/VirtualMemory.cpp:283-302 | the page table answers exactly for resident pages, and marks them as used |
| VirtualMemoryUnit.VirtualMemory.ServeTlbHit | src/VirtualMemory.cpp:260-280 | a TLB hit changes only the access data of the page, as a page-table hit would |
| VirtualMemoryUnit.VirtualMemory.HandleFault | src/VirtualMemory.cpp:311-332 | a page fault is the reference fault; failure exactly when there are no frames |
| VirtualMemoryUnit.VirtualMemory.CheckAccess | src/VirtualMemory.cpp:224-252 | an access is admitted exactly if it is not denied and below 2^48 or the flat table's end, or allowed by a region in four-level mode; otherwise the right fault is reported |
| VirtualMemoryUnit.ToIntExact | src/VirtualMemory.cpp:330 | the frame table's 32-bit entry equals the page number if and only if that is below 2^31 |
| TlbUnit.Tlb.constructor | src/VirtualMemory.cpp:9-12 | a new TLB has `entries / ways` sets of `ways` invalid entries, and caches nothing |
| TlbUnit.Tlb.Lookup | src/VirtualMemory.cpp:15-26 | a lookup answers with a cached translation if there is one, -1 otherwise, and caches the same as before |
| TlbUnit.Tlb.Insert | src/VirtualMemory.cpp:29-56 | afterwards the translation is cached, no older one for the page, and nothing that was not cached before |
| TlbUnit.Tlb.Invalidate | src/VirtualMemory.cpp:59-68 | exactly the translations of the page are gone |
| TlbUnit.FindWay | src/VirtualMemory.cpp:19-24 | the scan of a set finds the first way that holds the page |
| TlbUnit.SelectVictim | src/VirtualMemory.cpp:41-54 | the scan for a victim finds the first invalid way, else the first one used longest ago |
| TlbUnit.PlacedCaches | src/VirtualMemory.cpp:29-56 | a set keeps at most one entry per page when a translation is put in |
| TlbUnit.PlacedEvictsOldest | src/VirtualMemory.cpp:41-55 | another page's entry is replaced only in a full set, and then it is one used longest ago |
| TlbLru.MostRecentlyServed | src/VirtualMemory.cpp:15-68 | after every run of services and shootdowns on a new TLB a page is in it if and only if it is among the k most recently served pages of its set not shot down since, where k is the number of valid ways of the set |
| TlbLru.KeptWithoutShootdowns | src/VirtualMemory.cpp:29-56 | without shootdowns in the set k is the number of ways, or of pages served if there are fewer, so the set holds its `ways` most recently served pages |
| TlbLru.ShootdownLeavesGap | src/VirtualMemory.cpp:59-68 | after a shootdown k can stay below the ways: the concrete run where a page that an insertion displaced is the second most recently served of two ways, and is not in the TLB |
| TlbLru.ServeAll | src/VirtualMemory.cpp:255-330 | lookups and insertions of missed pages on the TLB object are the runs of which the two theorems speak |
| TlbTrace.RunRanks | src/VirtualMemory.cpp:221-333 | over every run of translations the pages a TLB set ranks are exactly the resident pages that belong to the set, in order of their last use: evicted pages leave with the shootdown, loaded and used ones come to the front |
| TlbTrace.KnownPages | src/VirtualMemory.cpp:221-333 | after every run on a new TLB it knows a page if and only if the page is resident and among the k resident pages of its set used last, where k is the number of valid ways |
| TlbTrace.JustUsed | src/VirtualMemory.cpp:324-332 | a page just translated is known, so an immediate repeat is a TLB hit |
| Mmu.StepInv | src/VirtualMemory.cpp:221-333 | every translation keeps: free and mapped frames partition the frames, frame table and resident pages are inverse, load and access times are distinct |
| Mmu.FaultInv | src/VirtualMemory.cpp:304-332 | a page fault keeps the frame invariant, and its page is resident afterwards if and only if there is a frame |
| Mmu.EvictInv | src/VirtualMemory.cpp:192-217 | eviction frees exactly the victim's frame and drops exactly its page |
| Mmu.OldestBelow | src/VirtualMemory.cpp:132-154 | the frame chosen has the smallest time of those scanned |
| Mmu.Skipped | src/VirtualMemory.cpp:155-190 | all frames passed by the sweep are referenced and the one it stops at is not |
| MmuRuns.TranslationCorrect | src/VirtualMemory.cpp:221-333 | with at least one frame an admitted access always gets an address: the page's frame times 64 plus the offset, in a frame no other page has |
| MmuRuns.Accounting | src/VirtualMemory.cpp:254-315 | over every run hits plus faults are the admitted accesses, and disk accesses are faults plus dirty evictions |
| MmuRuns.FaultsWhenAbsent | src/VirtualMemory.cpp:304-308 | a translation faults if and only if it is admitted and the page is not resident |
| MmuRuns.ModeEquivalence | src/VirtualMemory.cpp:224-225 | for addresses below the flat limit both modes go through the same states and return the same addresses, under all policies |
| MmuLru.LruStack | src/VirtualMemory.cpp:132-154 | after every run under LRU with N frames the resident pages are the first min(N, used) pages of the recency order, sorted by access time |
| MmuLru.MostRecentResident | src/VirtualMemory.cpp:132-154 | a page is resident if and only if it is one of the N most recently translated distinct pages |
| MmuLru.Inclusion | src/VirtualMemory.cpp:132-154 | under LRU more frames keep every page that fewer frames keep |
| MmuLru.MoreFramesFewerFaults | src/VirtualMemory.cpp:132-154 | under LRU more frames never cause more faults, on any trace |
| MmuFifo.FifoQueue | src/VirtualMemory.cpp:132-154 | under FIFO the frames hold exactly the pages loaded last, and timestamp selection is a true queue |
| MmuFifo.RoundRobin | src/VirtualMemory.cpp:79-82 | under FIFO the k-th fault, counted from 0, uses frame k mod N |
| MmuFifo.LastLoadedResident | src/VirtualMemory.cpp:132-154 | under FIFO a page is resident if and only if it is among the last N loaded |
| MmuFifo.FaultsOfQueue | src/VirtualMemory.cpp:132-154 | FIFO paging with all its time stamps loads what a plain queue of page numbers loads, on every trace of admitted accesses, and faults as often |
| MmuFifo.FourFramesFaultMore | src/VirtualMemory.cpp:132-154 | Belady's anomaly: a trace of twelve reads faults nine times on three frames and ten times on four, so `MmuLru.MoreFramesFewerFaults` has no FIFO counterpart |
| MmuClock.ClockVictim | src/VirtualMemory.cpp:155-190 | the victim is the first unreferenced frame from the hand on, or the hand's own frame if all are referenced |
| MmuClock.ClockSweep | src/VirtualMemory.cpp:163-189 | the sweep clears the bits of exactly the frames before the victim (of all, if all were set) and leaves the hand one past it |
| MmuClock.SecondChance | src/VirtualMemory.cpp:163-180 | a referenced page is evicted only if every resident page is referenced |
| MmuClock.SweepStep | src/VirtualMemory.cpp:158-189 | one attempt either clears a bit and moves on or stops at the victim |
| MmuPages.AddressGiven | src/VirtualMemory.cpp:224-252 | an access gets an address if and only if it is not denied and below the limit, or allowed by a region in multi-level mode; any other access changes nothing at all |
| MmuPages.StepPage | src/VirtualMemory.cpp:260-332 | the page of a translation is resident, referenced and used now; loaded now if it was absent, and dirty if this or an earlier access since its load wrote |
| MmuPages.StepOthers | src/VirtualMemory.cpp:155-218 | every other resident page keeps frame, times and dirty bit, and loses its reference bit exactly if CLOCK sweeps and every frame from the hand to its own is referenced |
| MmuPages.StepPages | src/VirtualMemory.cpp:304-332 | a page that is loaded gets a frame that exists, and the page that held it, if any, is the only one that goes |
| MmuPages.ReferencedBit | src/VirtualMemory.cpp:155-190 | over every run a resident page is referenced if and only if it was translated since the sweep last passed it |
| MmuPages.DirtyBit | src/VirtualMemory.cpp:203-217 | over every run a resident page is dirty if and only if it was written to since its last load |
| MmuPages.FirstFrames | src/VirtualMemory.cpp:73-83 | until all frames are used the hand stays at frame 0 and the free frames are the unused ones in ascending order |
| MmuPages.StepHand | src/VirtualMemory.cpp:155-190 | the hand moves exactly in a sweep, to the frame behind the one that the page gets |
| PageTable.ExtractIndex | src/MultiLevelPageTable.cpp:17-25 | shifting and masking give the 9-bit index of the level |
| PageTable.IndicesRecompose | src/MultiLevelPageTable.cpp:17-25 | for page numbers below 2^36 the four indices recompose to the page number |
| PageTable.ShrIsPrefix | src/MultiLevelPageTable.cpp:19-24 | the shift of each level cuts the page number to its leading indices |
| PageTable.MultiLevelPageTable.constructor | src/MultiLevelPageTable.cpp:29-32 | a new table maps nothing and has one node |
| PageTable.MultiLevelPageTable.Walk | src/MultiLevelPageTable.cpp:44-73 | a walk never changes the map from page numbers to entries, keeps the tree acyclic and unshared, returns the page's own leaf slot at cost 4, and null exactly from 2^36 on |
| PageTable.MultiLevelPageTable.AddTable | src/MultiLevelPageTable.cpp:60-64 | a table allocated on demand changes no entry and keeps the tree a tree |
| PageTable.MultiLevelPageTable.SetLeaf | src/MultiLevelPageTable.cpp:82-87 | writing through a leaf slot changes exactly the entry of its page |
| PageTable.MultiLevelPageTable.Map | src/MultiLevelPageTable.cpp:77-88 | map changes exactly one key of the abstract map |
| PageTable.MultiLevelPageTable.Unmap | src/MultiLevelPageTable.cpp:92-101 | unmap changes exactly one key of the abstract map |
| PageTable.MultiLevelPageTable.TablesPerPrefix | src/MultiLevelPageTable.cpp:54-66 | the tables allocated are 1 plus the numbers of distinct 1-, 2- and 3-index prefixes walked |
| Cache.CacheLevel.Access | src/Cache.cpp:35-54 | a probe is the reference probe: index and tag by shifts, counters, hit data |
| Cache.CacheLevel.Insert | src/Cache.cpp:57-88 | insert is the reference insert; the address rebuilt by shift and or is the start of the evicted block |
| Cache.CacheLevel.Invalidate | src/Cache.cpp:91-105 | invalidate is the reference one, and tells whether the line was dirty |
| Cache.CacheLevel.InvalidateFrame | src/Cache.cpp:108-113 | the loop is the reference sweep of the range |
| Cache.CacheLevel.constructor | src/Cache.cpp:10-23 | a new level is empty and its bit counts match block size and number of sets |
| Cache.CacheLevel.SetPolicy | src/Cache.cpp:30-32 | only the policy changes |
| Cache.MakeLevel | src/Cache.cpp:13-15 | construction fails exactly for a zero parameter or a number of sets that is not a power of two |
| Cache.SelectVictim | src/Cache.cpp:63-77 | the scan finds the first invalid way, else the first with the smallest policy key |
| Cache.MemoryHierarchy.Request | src/Cache.cpp:144-170 | a request on the objects is the reference request, with the same outcome |
| Cache.MemoryHierarchy.HandleWriteback | src/Cache.cpp:173-176 | a write-back probes the next level only |
| Cache.MemoryHierarchy.InvalidatePhysicalRange | src/Cache.cpp:137-141 | all three levels are swept |
| CacheModel.AccessContains | src/Cache.cpp:35-54 | a probe hits exactly the blocks that are there and does not change what is there |
| CacheModel.InsertContains | src/Cache.cpp:57-88 | inserting an absent block adds it and loses at most the evicted one, which was there |
| CacheModel.InvalidateContains | src/Cache.cpp:91-105 | exactly the block is gone |
| CacheModel.RangeContains | src/Cache.cpp:108-113 | a sweep of any range drops exactly the blocks that its steps of one block size meet, wherever in a block the range starts |
| CacheContents.RequestCases | src/Cache.cpp:144-170 | the outcome is the highest level that holds the block; the levels below it are not probed |
| CacheContents.RequestContents | src/Cache.cpp:144-170 | a request keeps at most one valid line per set and tag in all levels, although insert does not check it, and brings in at most the requested block |
| CacheContents.RepeatHitsL1 | src/Cache.cpp:144-170 | an immediate repeat of a request is an L1 hit, under any policies |
| CacheContents.SweepClearsFrame | src/Cache.cpp:108-113 | for block sizes that divide the frame size a sweep drops exactly the lines in the frame |
| MemorySystem.NoStaleData | src/VirtualMemory.cpp:197-201 | after every run each valid line of each level lies in a mapped frame and its data left memory for the page now in it, since that page was loaded; a line copied up from L2 or L3 keeps the origin of the line it was copied from |
| MemorySystem.SourceIs | src/Cache.cpp:144-170 | a request takes its data from the highest level that holds the block, and from memory if none does |
| MemorySystem.SourceHeld | src/Cache.cpp:144-170 | the line that a request copies its data from is valid and lies in the frame of the address |
| MemorySystem.StepSound | main.cpp:219-225 | one translate-then-request keeps every cached line current |
| MemorySystem.RunFollowsMmu | main.cpp:219-225 | the caches have no influence on translation |
| MemorySystem.SweepsLostFrame | src/VirtualMemory.cpp:197-201 | the sweep of a translation drops a line if and only if the frame it lies in loses its page |
| CacheHistory.LinesRecord | src/Cache.cpp:31-103 | after every run of probes, fills and drops on an empty level every valid line records its block's history: the number of uses since it was put in, whether it was written to since, when it was put in and when it was last used; hits and misses are the probes that found their block and that did not |
| CacheHistory.OpCounts | src/Cache.cpp:40-52 | a probe advances the level's clock and counts a hit if and only if the block is there, else a miss; fills and drops count nothing |
| CacheHistory.VictimByHistory | src/Cache.cpp:63-88 | a full set loses, under LRU, FIFO and LFU, the block that was used longest ago, put in first or used least often since it was put in, read off the operations alone; among equals the one in the first way; and the eviction tells whether it was written to |
| CacheHistory.DropTells | src/Cache.cpp:92-104 | an invalidation reports dirty if and only if the block was there and written to since it was put in |
| CacheTraffic.ServedByL1 | src/Cache.cpp:147 | a request served by L1 is one probe of L1 and nothing else |
| CacheTraffic.ServedByL2 | src/Cache.cpp:149-152 | a request served by L2: the operations on each level, with one more probe of L2, as a write, exactly if L1 loses a dirty line, at that line's address |
| CacheTraffic.ServedByL3 | src/Cache.cpp:154-161 | a request served by L3: the operations on each level; what L2 loses is dropped from L1, and L3 is probed for it as a write exactly if it was dirty in L1 or L2 |
| CacheTraffic.ServedByMemory | src/Cache.cpp:163-169 | a request no level serves: the operations on each level; what L3 loses is dropped from L2, and from L1 unless it was dirty in L2 |
| MemoryHistory.RunDocumented | main.cpp:205-228 | after every run of the whole machine from new caches each level is the outcome of a sequence of such operations that its lines and counters record, whatever the policies |
| CacheLru.TimestampsRealiseRecency | src/Cache.cpp:57-77 | over every run of requests and range invalidations under LRU the timestamped hierarchy hits, misses and is served exactly like move-to-front lists without any time |
| CacheLru.EmptyLruRealises | src/Cache.cpp:57-77 | the same from three empty LRU levels of any geometry on, without further assumption |
| MemoryLru.AnswersOfLists | main.cpp:205-228 | the whole machine under LRU caches, translation, frame sweeps and requests: on every trace each access finds its data at the level where move-to-front lists find it, whatever the paging policy and mode |
| MemoryLru.StepRealises | main.cpp:219-225 | one access with its sweep and request keeps caches and lists in step and is answered alike |
| CacheFifo.FifoSetIsQueue | src/Cache.cpp:53-103 | after every run of probes, insertions and invalidations at rising times the valid lines of a FIFO set are those of a queue of tags, in its order of insertion, with its dirty bits; hits do not reorder it |
| CacheFifo.FillQueued | src/Cache.cpp:63-88 | an insertion into a FIFO set joins the queue, and what leaves a full set is the line inserted first |
| CacheLru.RequestRealises | src/Cache.cpp:144-176 | one request keeps three levels in step with their lists, with pairwise distinct access times per level |
| CacheLru.InvalidateFrameRealises | src/Cache.cpp:137-141 | range invalidation keeps them in step |
| CacheRecency.FillRealises | src/Cache.cpp:63-88 | an insertion moves the new tag to the front and throws out the last of a full list |
| CacheRecency.TouchRealises | src/Cache.cpp:44-50 | a hit moves the tag to the front |
| CacheRecency.ClearRealises | src/Cache.cpp:97-103 | an invalidation takes the tag out of the list |
| CacheRecency.VictimIsLast | src/Cache.cpp:63-77 | the LRU victim of a full set is the last of its list |
| CacheRecency.ListLength | src/Cache.cpp:18 | a set's list has as many tags as the set has valid ways, and is full exactly when no way is invalid |
| BuddyRounding.RoundToBuddySize | src/BuddyAllocator.cpp:40-57 | with real 64-bit wraparound the result is 64 times the least sufficient power of two up to 2^63 bytes and 0 beyond |
| BuddyRounding.RoundUpPages | src/BuddyAllocator.cpp:47-54 | bit smearing gives the least power of two that is at least the count |
| BuddyRounding.OrderFor | src/BuddyAllocator.cpp:40-57 | the order is the least whose block holds the bytes |
| BuddyRounding.OrderWithinWord | src/BuddyAllocator.cpp:40-57 | rounding stays in range if and only if the size is at most 2^63 |
| BuddyRounding.OrderOf | src/BuddyAllocator.cpp:26-37 | recovers the exponent of a power-of-two page count, -1 for every other count |
| BuddyTree.CanonicalForm | src/BuddyAllocator.cpp:149-178 | in every tiling the free blocks are exactly the maximal aligned blocks apart from the used ones |
| BuddyTree.FreeSetIsDetermined | src/BuddyAllocator.cpp:149-178 | the free set depends on the used blocks alone |
| BuddyTree.VacantRunIsInFreeBlock | src/BuddyAllocator.cpp:105-108 | every aligned vacant run lies inside one free block |
| BuddyTree.PagesOfBlock | src/BuddyAllocator.cpp:117-129 | the tree order is containment of page intervals |
| BuddyModel.AllocateCorrect | src/BuddyAllocator.cpp:92-134 | an allocation fails exactly for size 0 or when no aligned run of the rounded size is vacant; otherwise a fresh id gets a block of exactly that size that was vacant, and the other live blocks stay |
| BuddyModel.HugeRequestFails | src/BuddyAllocator.cpp:96-100 | a request above 2^63 bytes wraps to 0 in the rounding and is refused, leaving the state alone: it never gets a short block |
| BuddyModel.DeallocateCorrect | src/BuddyAllocator.cpp:137-179 | freeing removes exactly the id and keeps the invariant; an unknown id changes nothing |
| BuddyModel.RunCanonical | src/BuddyAllocator.cpp:92-179 | after every run the free blocks are the maximal gaps |
| BuddyModel.HistoryIndependence | src/BuddyAllocator.cpp:92-179 | runs that leave the same live blocks leave the same free blocks |
| BuddyModel.RoundTrip | src/BuddyAllocator.cpp:92-179 | an allocation followed by its deallocation restores free blocks and live ids |
| BuddyModel.FreeingAllRestoresPool | src/BuddyAllocator.cpp:137-179 | freeing all ids in any order, with repetitions, leaves one block of the whole pool |
| BuddyModel.SplitDownHeld | src/BuddyAllocator.cpp:117-129 | splitting keeps the tiling, and its free blocks reduced |
| BuddyModel.MergeUpHeld | src/BuddyAllocator.cpp:149-178 | merging keeps the tiling, and its free blocks reduced |
| BuddyAnswers.AllocatePlace | src/BuddyAllocator.cpp:92-134 | which block an allocation gets, and all lists after it in closed form: the lowest part of the head of the first list from its order up that is not empty, and one upper half for each order between; ids count up |
| BuddyAnswers.FirstAllocation | src/BuddyAllocator.cpp:92-134 | the first allocation of a new pool gets id 1 and address 0 |
| BuddyAnswers.DeallocatePlace | src/BuddyAllocator.cpp:137-180 | where a freed block ends, and all lists after it: each list on the way loses just the other half, and the joined block goes to the head of the list of the first order whose other half is not free |
| BuddyAllocation.BuddyAllocator.constructor | src/BuddyAllocator.h:28-47 | a new allocator has no pool and no ids |
| BuddyAllocation.BuddyAllocator.Init | src/BuddyAllocator.cpp:60-89 | initialisation leaves the fresh pool of the rounded size, for sizes up to 2^63 |
| BuddyAllocation.BuddyAllocator.Allocate | src/BuddyAllocator.cpp:92-134 | on the heap: result and new free lists, page index and id map are those of the value model; without a pool every request fails |
| BuddyAllocation.BuddyAllocator.SplitBlock | src/BuddyAllocator.cpp:117-129 | the split loop on the linked lists is the split of the value model |
| BuddyAllocation.BuddyAllocator.Deallocate | src/BuddyAllocator.cpp:137-179 | on the heap, with or without a pool: the new state is that of the value model |
| BuddyAllocation.BuddyAllocator.Coalesce | src/BuddyAllocator.cpp:149-178 | the merge loop on the linked lists is the merge of the value model; addr xor size is always the sibling in range |
| BuddyAllocation.BuddyAllocator.TakeSibling | src/BuddyAllocator.cpp:155-165 | the page index tells whether the sibling is free, and exactly then it is unlinked |
| BuddyAllocation.BuddyAllocator.GetAddress | src/BuddyAllocator.cpp:182-187 | the address of a live id, none for another |
| BuddyAllocation.Unlink | src/BuddyAllocator.cpp:158-161 | unlinking a node leaves a well linked list without it |
| Bits.XorIsSibling | src/BuddyAllocator.cpp:150 | flipping the size bit of an aligned address gives the other half of the enclosing block |
| Bits.AndWithPredecessor | src/BuddyAllocator.cpp:29 | x and x - 1 have no common bit if and only if x is a power of two |
| SlabRuns.OneOwner | src/SlabAllocator.cpp:83-185 | in every interleaving of any number of threads a bit is set if and only if it has an owner, and then exactly one: a published id, an allocator that has not published yet, or a deallocator that has not freed the slot yet |
| SlabRuns.LiveBlocks | src/SlabAllocator.cpp:138-144 | in every interleaving live blocks of all classes are aligned to their class, inside the pool and pairwise disjoint |
| SlabRuns.RepeatedFree | src/SlabAllocator.cpp:151-169 | however often and by whichever threads an id is freed, at most one slot is released for it |
| SlabRuns.WaitChain | src/SlabAllocator.cpp:94-184 | a thread that cannot go on waits for exactly one other thread, and that one can go on or waits for a third one that can: chains of waiting have length two at most and no cycle |
| SlabRuns.LockOrder | src/SlabAllocator.cpp:94-184 | whoever holds the pool or the id map waits for nothing, and whoever holds a cache never waits for a cache |
| SlabRuns.NoDeadlock | src/SlabAllocator.cpp:94-144 | in every reachable state with a thread inside a call some thread inside a call can step |
| SlabRuns.Progress | src/SlabAllocator.cpp:83-185 | every step inside a call brings the thread nearer to its end, at most eight steps away |
| SlabRuns.CallsEnd | src/SlabAllocator.cpp:83-185 | in any order, the threads take at most eight steps each once no call begins; a run that cannot go on has all threads idle |
| SlabRuns.FailsOnlyWhenFull | src/SlabAllocator.cpp:117-136 | in every interleaving an allocation of a size in range gives up exactly when the pool's bytes divided by 1024 were all carved out as slabs, and then every slot of its class's slabs is taken |
| SlabRuns.TakeReleases | src/SlabAllocator.cpp:151-169 | a step releases a slot for an id only if the id could still release one, and then never again |
| SlabProtocol.StepInv | src/SlabAllocator.cpp:83-185 | every step of every thread keeps pool, lists, locks, id map and ownership in order |
| SlabProtocol.LocksKept | src/SlabAllocator.cpp:94-165 | a lock is held exactly by the thread whose place says so |
| SlabProtocol.OwnersPass | src/SlabAllocator.cpp:126-144 | passing a slot between bitmap, threads and id map keeps ownership exact |
| SlabProtocol.StartInv | src/SlabAllocator.cpp:24-59 | the system starts in order |
| SlabModel.AllocSlotCorrect | src/SlabAllocator.h:32-41 | a slab with room yields a clear slot, sets just that bit, and keeps count and bits in agreement |
| SlabModel.FreeSlotCorrect | src/SlabAllocator.h:44-49 | freeing a set slot clears just that bit and keeps count and bits in agreement |
| SlabModel.TakeListedCorrect | src/SlabAllocator.cpp:99-116 | taking a slot from a listed slab keeps each slab in exactly the list its count says |
| SlabModel.TakeNewCorrect | src/SlabAllocator.cpp:127-133 | so does taking the first slot of a new slab |
| SlabModel.ReturnCorrect | src/SlabAllocator.cpp:164-184 | so does freeing a slot, and exactly that bit is cleared |
| SlabModel.ClassFor | src/SlabAllocator.cpp:62-67 | the class is the first that is large enough |
| SlabCalls.AllocateRuns | src/SlabAllocator.cpp:83-148 | the sequential call is the uninterrupted run of one thread of the protocol: same pool at the end, and its result is what the thread holds when it leaves the cache |
| SlabCalls.DeallocateRuns | src/SlabAllocator.cpp:151-185 | likewise for deallocation |
| SlabCalls.AllocateCorrect | src/SlabAllocator.cpp:83-148 | a sequential allocation fails exactly for size 0, for sizes above 512, and when every slot of its class's slabs is taken and all slabs that fit into the pool are carved out; otherwise a new id gets a slot of the smallest fitting class that was free, and only that bit is set |
| SlabCalls.DeallocateCorrect | src/SlabAllocator.cpp:151-185 | a sequential deallocation removes exactly the id and its bit; an unknown id changes nothing |
| SlabCalls.RoundTrip | src/SlabAllocator.cpp:83-185 | allocating and freeing restores ids and bits |
| SlabModel.RoomIsFreeSlot | src/SlabAllocator.cpp:98-115 | a class has a slab in its partial or empty list if and only if one of its slabs has a free slot |
| SlabAnswers.AllocatePlace | src/SlabAllocator.cpp:83-148 | which slot an allocation gets: the first free one of the first partial slab, else of the first empty one, else of a new slab, which is carved out only if no slot was free; its address, the next id, and the count of the class |
| SlabAnswers.FirstAllocation | src/SlabAllocator.cpp:83-148 | the first allocation of a new pool gets id 1 and address 0 |
| SlabAnswers.AllocateOrder | src/SlabAllocator.cpp:98-136 | the order of the three lists after an allocation: a filled slab joins the end of the full list, one newly in use the end of the partial list, and the other classes do not change |
| SlabAnswers.DeallocateOrder | src/SlabAllocator.cpp:151-185 | the order of the three lists after a deallocation: a slab that changes state leaves its list and joins the end of the partial or empty one, and all others keep their places |
| SlabAllocation.SlabAllocator.Allocate | src/SlabAllocator.cpp:83-148 | on the heap: id and new state are those of the sequential call |
| SlabAllocation.SlabAllocator.Deallocate | src/SlabAllocator.cpp:151-185 | on the heap: the new state is that of the sequential call |
| SlabAllocation.SlabAllocator.Init | src/SlabAllocator.cpp:24-59 | initialisation leaves an empty pool of the given size |
| SlabAllocation.SlabAllocator.CreateSlab | src/SlabAllocator.cpp:70-79 | a slab is carved off exactly when 1024 more bytes than carved off already fit into the pool |
| SlabAllocation.SlabAllocator.FindCacheIndex | src/SlabAllocator.cpp:62-67 | the loop finds the first class that is large enough, -1 if there is none |
| SlabAllocation.SlabAllocator.GetAddress | src/SlabAllocator.cpp:188-193 | the address of a live id, 0 for another |
| SlabAllocation.SlabObject.AllocSlot | src/SlabAllocator.h:32-41 | the loop takes the first clear bit |
| SlabAllocation.SlabObject.FreeSlot | src/SlabAllocator.h:44-49 | clears a set bit and counts it |
| LinearModel.AllocateCorrect | src/MemoryAllocator.cpp:55-92 | every strategy fails on a positive size if and only if no contiguous free run of it exists; otherwise the block starts at the gap the strategy prefers (lowest, smallest, largest; ties to the lower address), has exactly the requested size, and nothing else changes |
| LinearModel.DeallocateCorrect | src/MemoryAllocator.cpp:95-120 | freeing makes exactly the block's bytes free and leaves the other used blocks; an unknown id changes nothing |
| LinearModel.ReleasedCorrect | src/MemoryAllocator.cpp:105-119 | after two-sided coalescing the list tiles the pool and no free blocks touch |
| LinearModel.AllocateInv | src/MemoryAllocator.cpp:75-91 | splitting keeps tiling, labels and separation of free blocks |
| LinearModel.FitsIffFreeRun | src/MemoryAllocator.cpp:64-71 | some free block is large enough if and only if some contiguous run is free |
| LinearModel.GapIsBlock | src/MemoryAllocator.cpp:64-71 | the maximal free runs are exactly the free blocks |
| LinearModel.ChoicePreferred | src/MemoryAllocator.cpp:64-71 | the scan's choice is preferred to every other fitting block |
| LinearModel.Canonical | src/MemoryAllocator.cpp:105-119 | the block list depends on the used blocks alone |
| LinearModel.HistoryIndependence | src/MemoryAllocator.cpp:55-120 | histories that leave the same used blocks leave the same list |
| LinearModel.RoundTrip | src/MemoryAllocator.cpp:55-120 | allocating and freeing restores the list |
| LinearModel.AllFree | src/MemoryAllocator.cpp:105-119 | with nothing in use one free block fills the pool |
| LinearModel.RunInv | src/MemoryAllocator.cpp:29-120 | every run from an initialisation keeps the invariant |
| LinearAnswers.InitCorrect | src/MemoryAllocator.cpp:29-50 | the first allocation after an initialisation gets id 1 and the pool's first bytes, and the counters start again; without a size there is no pool, and nothing else changes |
| LinearAnswers.RunCounts | src/MemoryAllocator.cpp:52-120 | over every run the counters are the numbers of requests and of grants, and ids are numbered from 1 in order of the grants |
| LinearAllocation.MemoryAllocator.Init | src/MemoryAllocator.cpp:29-51 | on the heap: one free block of the size; for size 0 no block and the old total |
| LinearAllocation.MemoryAllocator.FindBlock | src/MemoryAllocator.cpp:60-71 | the list walk finds the choice of the strategy |
| LinearAllocation.MemoryAllocator.Allocate | src/MemoryAllocator.cpp:55-92 | on the heap: id, doubly linked list and id map are those of the value model |
| LinearAllocation.MemoryAllocator.Deallocate | src/MemoryAllocator.cpp:95-120 | on the heap: the relinked list and id map are those of the value model |
| LinearAllocation.MemoryAllocator.CutOff | src/MemoryAllocator.cpp:75-83 | splitting a node keeps the list well linked both ways |
| LinearAllocation.MemoryAllocator.Absorb | src/MemoryAllocator.cpp:105-119 | swallowing the next node keeps the list well linked both ways |
| LinearAllocation.MemoryAllocator.GetAddress | src/MemoryAllocator.cpp:20-26 | the start of a used block, 0 for an unknown id |

## Left out

- Concurrency of everything but the slab allocator: the caches' per-set locks, the TLB lock and the single mutexes of the other allocators are not modelled; their calls are atomic. The order of memory operations inside `SpinLock` is not modelled.
- Slab `init` during other calls: it takes the locks in the opposite order, so it is modelled as a sequential call only. `get_address` reads the id map under its lock and is modelled sequentially.
- 64-bit counters and `int` ids are unbounded numbers, except in buddy rounding, where wraparound is part of the claim, and the `int` page numbers of the frame table. So the timestamp scans never see the largest 64-bit value.
- VirtualMemoryUnit.VirtualMemory.Translate: in four-level mode requires page numbers below 2^31 of admitted accesses, because the frame table cuts larger ones to 32 bits (`ToIntExact`); one TLB is used with a unit; statistics are not reset during a run.
- VirtualMemoryUnit.VirtualMemory.LookupPage: the same limit of 2^31 on page numbers, for admitted accesses in four-level mode.
- VirtualMemoryUnit.VirtualMemory.HandleFault: the same limit of 2^31 on page numbers, for admitted accesses in four-level mode.
- Machine.RunFresh: the same limit of 2^31 on page numbers, for admitted accesses in four-level mode.
- Machine.ReadOrWrite: the same limit of 2^31 on page numbers, for admitted accesses in four-level mode.
- Machine.RunMachine: the same limit of 2^31 on page numbers, for admitted accesses in four-level mode.
- VirtualMemoryUnit.VirtualMemory.SetMultiLevelPaging: only before a page is mapped; switching later leaves translations of the other table behind.
- VirtualMemoryUnit.VirtualMemory.constructor: the flat page table has at most 2^31 entries.
- Machine.TranslateAll: starts from a fresh unit and keeps policy and mode for the run; the same limit of 2^31 on page numbers.
- BuddyAllocation.BuddyAllocator.Init: sizes up to 2^63; above that the rounded size is 0 and the program indexes an empty list.
- Cache.MakeLevel: block sizes are powers of two and a level has at least one set, because the program's shifts and remainders assume both.
- Cache.CacheLevel.constructor: block sizes are powers of two, as for `MakeLevel`.
- CacheContents.SweepClearsFrame: block sizes divide the page size, as in the program's configuration.
- Machine.RunFromStart: the same limit of 2^31 on page numbers; block sizes divide the page size and there is at least one frame; a history of copies between levels does not look into a line that is larger than the one it is copied from, which the program's block sizes of 8, 16 and 32 bytes exclude.
- TlbLru.ServeAll: a service is a lookup together with its insertion; in a page fault the shootdown of the victim comes between the two, which the runs place before the lookup.
- CacheLru.TimestampsRealiseRecency: the policy is LRU throughout; FIFO is treated set by set (`CacheFifo.FifoSetIsQueue`); for LFU, and for all policies, the choice of the victim is stated by `CacheHistory.VictimByHistory`.
- Cache.CacheLevel.Access: `reset_stats`, which restarts the level's clock, is not modelled.
- Inclusion between cache levels and preservation of dirty data: the program keeps neither.
- The three allocators' destructors, the deletion of nodes, and all display and statistics code.
- The mmap manager itself, `main.cpp` beyond the read and write commands, the trace and thread benchmarks, and the visualisation.
- `VirtualMemory::release_frame` and `MultiLevelPageTable::clear`, which no modelled call uses.
- Bits are modelled on natural numbers by recursion on the binary digits, not as bit-vectors; shifts to the left are products.
- The thrown exceptions of the cache constructor appear as the result `None`, and error texts as the reports of a datatype.
