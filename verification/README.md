# PatchworkOS in Dafny

This project models the kernel-side data structures and protocols of PatchworkOS, and a few of its user-space
components, and proves what they promise. Code that runs step by step is modelled as classes and methods with loops;
protocols between CPUs, threads or address spaces are modelled as state machines whose steps are the individual loads,
stores and atomic operations, and the theorems about them range over every interleaving.

- `PageTree`, `PageAddr`, `TableState`, `FlatSpec`, `FrameLedger`, `Teardown`, `PageTables`, `PageAlloc`, `PageRuns`: the
  four-level page table, and the memory the kernel's virtual memory manager puts behind it. The table's memory is a map from frame number to level page. A ghost tree says where each level page
  hangs, `Flat` is the map from page number to leaf entry that a plain walk yields, and a ledger says which frames the
  table owes. Every operation is proved to act on the flat map as a one-line definition says, and every run from setup
  to teardown gives each frame back exactly once, except those it names as lost, and it names all of them.
- `PageSearch`, `LargeSearch`: the search for unmapped regions of that table, page by page for small requests and table by
  table for large ones. `PageQueries`: range queries, callback counting, flag changes.
  `BootMap`: the boot loader's mappings.
- `Words`, `Bitmaps`, `Rounding`, `Ports`: the word-packed bitmap, its searches and region allocator, and the I/O port
  reservations made from it.
- `RcuGrace`, `RcuList`, `RcuReuse`, `RcuUse`: the grace periods behind `rcu_call`, the RCU variants of the linked list,
  entries that are added to it again at once, and the list and the grace periods together, with removed entries given back
  by callbacks. `IntrusiveList`: the same list in sequential use.
- `IoRing`, `RingRace`: the submission and completion rings shared with the kernel, with one and with several producers.
  `CancelCell`: the cancellation cell of an I/O request packet. `LockFreePool`: the lock-free pool those packets come from.
- `Display`: the display client's event queue. `Commands`: its command buffer, byte by byte, and the checks and the walk of
  the server that receives it.
- `ConfigArray`, `Rects`, `AcpiResources`: splitting of configuration arrays, rectangle subtraction, and the walk over ACPI
  resource descriptors. `Common`: options, sequences without repetition, sizes of sets.

Findings that shaped the statements:

- `rcu_advance` lets a batch wait for the grace period already under way (src/kernel/sync/rcu.c:131). A CPU that has
  acknowledged that period and then entered a read section is not waited for. `RcuGrace.GraceExact` says exactly when
  the promise to a callback holds, and `RcuGrace.PromiseBroken` gives a run of three CPUs that breaks it.
  `RcuUse.DanglingExact` carries this over to a reader of an RCU list: exactly when the memory of the entry it stands on
  is safe from the callback that gives it back; `RcuUse.DanglingReached` is a run where it is not. A grace period begun
  while every CPU is idle never ends (`RcuGrace.StuckForever`, `RcuGrace.StuckReached`); any other can
  (`RcuGrace.CanEnd`).
- `irp_cancel` and the timeout check put NULL back after finding no callback (src/kernel/io/irp.c:202, 342). So the
  sentinel is not final in that case, and a completion that meets it is dropped (`CancelCell.LeavesSentinel`,
  `CancelCell.AbandonedExactly`, `CancelCell.LostCompletion`). Otherwise a packet is completed once, provided that every
  callback is installed before its completion begins (`CancelCell.CompletedOnce`); `CancelCell.OnceExactly` is the exact
  condition.
- `ioring_ctx_complete` takes no lock (src/kernel/io/ring.c:188-217), and the timeout check completes packets on the CPU
  that holds the timeout (src/kernel/io/irp.c:187-198), so two CPUs can push to one completion ring at a time.
  `RingRace.RaceExact` says that no completion is lost if and only if no push begins while another is under way;
  `RingRace.CompletionLost` loses one.
- `page_table_set_flags` carries the owned flag from one page to the next (include/kernel/mem/paging.h:700);
  `PageQueries.OwnedKeptExactly` and `PageQueries.AccountsKeptExactly` say exactly when that matters, and
  `PageQueries.GainsOwned` is a table where it does. Its comment says unmapped pages are skipped; the code fails on
  an absent entry and skips only pages without a table, and the model follows the code.
- The search does not align a region that starts under an absent top-level entry (include/kernel/mem/paging.h:846-849);
  `PageSearch.AlignedUnlessLoose` says exactly when the answer is still the lowest aligned one, and
  `PageSearch.AnswersUnaligned` is a case where it is not. For 512 pages and more the search returns the first aligned
  address without a table and looks neither past that table nor at the end of the range
  (`LargeSearch.HoleVouchesExactly`, `LargeSearch.InRangeExactly`); `LargeSearch.AnswersBusyRegion` returns a region with a
  mapped page, `LargeSearch.AnswersPastEnd` one that leaves the range.
- The comment on `page_table_clear` says pinned entries are skipped; the code does not look at the pinned bit, and the
  model follows the code.
- No line sets a valid flag of the traversal cache, so the reclaiming of empty levels inside `page_table_clear` never
  happens. The cache is nevertheless proved coherent from any coherent state, where a valid flag counts below valid levels.
  Taken one by one the flags stay right except after a walk that stops at the second level under a new top index while the
  lowest flag is set; `PageTables.PageTable.Traverse` states that exactly and `PageTables.FlagLeftBehind` shows one.
- The guard `idx <= maxIdx - length` of the bitmap's region allocator wraps when the region is longer than `maxIdx`. It
  then takes bits past `maxIdx` (`Bitmaps.LongRegionTaken`) or never ends (`Bitmaps.SearchRightOnlyIf`).
- `list_add_rcu` allows an entry that was just removed (include/sys/list.h:250-252). A reader standing on it, or on removed
  entries that lead to it, can then skip entries that never left the list; `RcuReuse.ReaddExact` says exactly which readers
  do, and `RcuReuse.ReuseSkipsEntry` is a run.
- Mapping over a page that was unmapped and not cleared loses its frame (`PageRuns.OverwriteLoses`).
- When a mapping fails, `vmm_alloc` discards the batches before it (src/kernel/mem/vmm.c:212-218). The pages of the batch
  it met stay mapped although the call fails, and the frames of that batch that were not mapped are neither mapped nor
  freed. `PageAlloc.AllocExact` says exactly when either happens; `PageRuns.AllocLeaks` is an allocation of two pages that
  loses a frame.
- `BYTES_TO_PAGES` wraps for a size in the last page of the address space and gives no pages at all
  (`BootMap.PagesExact`); the boot loader's identity map is complete exactly because region ends are page aligned.
- After a failed `vmm_map_pages` a caller frees all the frames it passed (src/kernel/io/ring.c:69), while the failure path
  has freed those that were mapped. `PageRuns.FreedBefore` is a mapping of two pages where the first frame is then freed
  twice; `PageRuns.MapGiven` shows that this needs a page whose table is missing and is not the first page's.
- `display_cmd_alloc` takes commands of up to 4096 bytes and no minimum. The server refuses buffers over 4096 bytes
  (src/boxes/core/dwm/client.c:386), so a command of more than 4080 never gets through (`Commands.LargestRefused`), and two
  headers that overlap never both pass its checks (`Commands.ShortNeverServed`). `Commands.Session` gives the exact
  condition for the commands of a client to be carried out.
- The tag of the pool's head is 48 bits wide. A caller overtaken by exactly 2^48 exchanges makes the pool hand out an
  element that is in use (`LockFreePool.HandedOutTwice`); `LockFreePool.LateAllocExact` says which late exchanges do harm.

The allocator and free callbacks of a page table are a pool of frames with an arbitrary choice. A stingy allocator may
refuse at any time; one that is not refuses only when nothing is free, and so does the boot loader's. The outcome of a socket write, the choice of idle CPUs, spurious failures of a
weak exchange and the events a handler pushes are parameters or arbitrary. Steps of the state machines are sequentially
consistent.

## Model

| member | source | states |
|---|---|---|
| PageTree.ResolveIsShape | include/kernel/mem/paging.h:255-293 | in a well-formed table the plain walk to any place of the radix tree reaches exactly the level page the tree has there, and nothing where it has none |
| PageTree.StoreLeaf | include/kernel/mem/paging.h:418-421 | a store to one leaf entry changes the translation of that page and of no other, and keeps the tree |
| PageTree.LinkLevel | include/kernel/mem/paging.h:192-203 | linking a zeroed page under an absent entry keeps the tree well formed, with one parent per level page, and changes no translation |
| PageAddr.PathOf | include/kernel/mem/paging_types.h:348-350 | the four indexes cut from an address name the leaf table of its 36-bit page number |
| PageAddr.NextPage | include/kernel/mem/paging.h:423-424 | advancing a wrapping 64-bit address by pages visits the consecutive page numbers from the start |
| TableState.GrowSound | include/kernel/mem/paging.h:182-206 | a new level comes out of the free frames, hangs at one place, and leaves the flat map as it was |
| PageTables.PageTable.PmlNew | include/kernel/mem/paging.h:74-85 | a level page is a free frame filled with zeroes, or nothing is taken |
| PageTables.PageTable.GetPml | include/kernel/mem/paging.h:182-206 | returns the child of the tree, creates it only if asked, with exactly the flags asked for, fails only when it is not there, and changes no translation |
| PageTables.PageTable.Fill3 | include/kernel/mem/paging.h:258-268 | a top-level entry made on the way grants writing and user access, is not global, and has the other flags asked for |
| PageTables.PageTable.Fill2 | include/kernel/mem/paging.h:270-279 | so does one of the next level, which keeps the global flag too |
| PageTables.PageTable.Fill1 | include/kernel/mem/paging.h:281-289 | and one of the level above the leaf tables |
| PageTables.PageTable.Traverse | include/kernel/mem/paging.h:255-293 | from any coherent cache the result is that of the uncached walk, and the cache is coherent afterwards, on failure too; flag by flag it stays so if and only if the walk does not stop at the second level with a new top index and the lowest flag set; without the present flag nothing changes |
| PageTables.FlagLeftBehind | include/kernel/mem/paging.h:258-280 | a table and a cache where that happens, while the cache is coherent from the top down |
| PageTables.CoherentShape | include/kernel/mem/paging.h:212-236 | a cache is coherent with the walk just when it is with the tree |
| PageTables.PageTable.Map | include/kernel/mem/paging.h:396-428 | exactly a prefix of the range, all of it on success, leads page i to frame i, with exactly the flags asked for and the callback id, over absent entries only; every other page keeps its entry; it stops only at a present page or for want of a level, and the latter only with no frame left unless the allocator is stingy |
| PageTables.PageTable.MapPages | include/kernel/mem/paging.h:443-474 | the same for an array of frames |
| PageTables.PageTable.Unmap | include/kernel/mem/paging.h:489-509 | the present entries of the range become absent and keep everything else, nothing else changes and nothing is freed |
| PageTables.PageTable.BufferPush | include/kernel/mem/paging.h:530-540 | the buffer never overflows; a frame is buffered or freed with the others, once |
| PageTables.PageTable.BufferFlush | include/kernel/mem/paging.h:550-557 | all buffered frames are freed once and the buffer is empty |
| PageTables.PageTable.Clear | include/kernel/mem/paging.h:603-637 | the absent entries of the range become zero and exactly the frames they owned are freed, once each |
| PageTables.PageTable.PmlFree | include/kernel/mem/paging.h:94-122 | frees exactly the level pages and the owned present frames below a level, each once |
| PageTables.TeardownPlan | include/kernel/mem/paging.h:94-122 | what the recursion reaches from the root is everything the table owes except the frames of absent owning entries and those overwritten before |
| PageTables.PageTable.Init | include/kernel/mem/paging.h:132-141 | one zeroed root page, an empty flat map, accounts in balance; or nothing taken |
| PageTables.PageTable.Deinit | include/kernel/mem/paging.h:148-151 | the memory is gone, the frames taken are those freed plus exactly the lost ones, and which are lost is stated |
| FlatSpec.MappedOne | include/kernel/mem/paging.h:403-425 | one more page extends a mapped prefix by one, in the map and in the ledger |
| FlatSpec.MapUnmapClear | include/kernel/mem/paging.h:396-637 | mapping a range and then unmapping and clearing it restores the flat map |
| FlatSpec.MapAppend | src/kernel/mem/vmm.c:191-221 | two mappings, the second from where the first ended, are one, in the map and in the ledger |
| FrameLedger.AccountOverwrite | include/kernel/mem/paging.h:418-421 | writing a leaf entry keeps the accounts: an owned frame it replaces is lost, a new one is owned by this page |
| FrameLedger.AccountRelease | include/kernel/mem/paging.h:627-632 | zeroing an absent owning entry moves its frame from owned to pending or free |
| PageRuns.Run | include/kernel/mem/paging.h:74-637 | for any sequence of operations between setup and teardown: what each does to the flat map; the frames taken are exactly the levels added and the frames for pages; each is freed once or lost, and all but the lost are free again; lost are exactly the frames of absent entries mapped over or left at the end and those a failed vmm_alloc forgets; only the last if each unmapped page is cleared before it is mapped again and before the end |
| PageAlloc.Withdraw | src/kernel/mem/pmm.c:275-315 | all the frames asked for, different and free before, or none if and only if too few are free |
| PageAlloc.Discard | src/kernel/mem/vmm.c:146-151 | the whole range becomes empty and exactly the frames it owned are free |
| PageAlloc.MapWithdrawn | src/kernel/mem/vmm.c:321-331 | distinct free frames stand behind the range in order, with the flags and id; or fewer were free than asked for and nothing changed; or a page was present or a level refused, the range is empty and the frames are free again |
| PageAlloc.Fill | src/kernel/mem/vmm.c:189-223 | the range is filled in batches of 64; after a failure the batches before are discarded, the pages mapped in the last one stay, its other frames are lost; and exactly how many frames were free then |
| PageAlloc.Alloc | src/kernel/mem/vmm.c:153-224 | refuses a request for nothing or without the present flag, and a range in use if the caller wants it alone; otherwise makes room and fills the range |
| PageAlloc.AllocExact | src/kernel/mem/vmm.c:197-218 | after a failure nothing of the range is mapped if and only if it came between two batches, and no frame is forgotten if and only if the allocator had run out |
| PageRuns.AllocLeaks | src/kernel/mem/vmm.c:197-218 | with six frames an allocation of two pages under neighbouring tables fails and loses a frame |
| PageRuns.MapGiven | src/kernel/mem/vmm.c:281-334 | every page is mapped, or a level was refused, the range is empty and the frames mapped before are free again; on pages whose tables are present or the first page's own it fails at the first page, and all frames may be freed by the caller |
| PageRuns.FailsAtFirst | include/kernel/mem/paging.h:443-474 | a failure after the first page needs a present page or a missing table other than the first page's |
| PageRuns.FreedBefore | src/kernel/io/ring.c:66-71 | with four frames for the levels, mapping pages 511 and 512 fails at the second, and the frame of the first is free before the caller frees it |
| PageRuns.OverwriteLoses | include/kernel/mem/paging.h:413-421 | a page with its own frame, unmapped and mapped again without clearing, leads to the new frame and loses its own, and nothing else is lost |
| PageRuns.MapWaits | include/kernel/mem/paging.h:396-474 | mapping pages of which none waits to be cleared loses no frame, whether it succeeds or not |
| PageSearch.FindSmallRegion | include/kernel/mem/paging.h:836-966 | for requests below 512 pages and every page-multiple alignment, the lowest fit in the range, or none if there is none; and exactly when it is also the lowest aligned fit |
| PageSearch.SearchPages | include/kernel/mem/paging.h:836-966 | the scan over absent subtrees and tables ends and finds the lowest fit |
| PageSearch.AlignedUnlessLoose | include/kernel/mem/paging.h:844-849 | the answer is the lowest aligned fit if and only if no unaligned start under an absent top-level entry fits before every aligned one |
| PageSearch.StrictIfPresent | include/kernel/mem/paging.h:844-849 | so it is if every top-level entry over the range is present |
| PageSearch.LooseAtStart | include/kernel/mem/paging.h:844-849 | for alignments that divide the size of a top-level entry it is unless a free run opens the range unaligned under an absent entry |
| PageSearch.AnswersUnaligned | include/kernel/mem/paging.h:844-862 | on an empty table a range that starts off the alignment is answered with its start |
| PageSearch.ScanTable | include/kernel/mem/paging.h:934-962 | the loop over one leaf table advances the scan page by page or stops at the lowest fit |
| PageSearch.RootSkip | include/kernel/mem/paging_types.h:359-362 | the end of a top-level entry's region, and where the jump over the non-canonical gap is harmless |
| LargeSearch.SearchHoles | include/kernel/mem/paging.h:739-834 | the loops for larger requests end and return the lowest aligned address of the range whose table is missing, or none if every such address has one |
| LargeSearch.HoleVouchesExactly | include/kernel/mem/paging.h:763-831 | on every sound table a missing table at an address means n free pages from there, if and only if the n pages end with that table |
| LargeSearch.WholeTableOnly | include/kernel/mem/paging.h:742-834 | a request that large is met for certain only if it asks for the pages of one table and gets that table's start |
| LargeSearch.InRangeExactly | include/kernel/mem/paging.h:751-824 | on every sound table the region returned lies in the range, if and only if the first aligned address of each granule that meets the range leaves room for it |
| LargeSearch.AnswersBusyRegion | include/kernel/mem/paging.h:783-834 | after setup and one mapping, a request for more than 512 pages is answered with a region that holds the mapped page |
| LargeSearch.AnswersPastEnd | include/kernel/mem/paging.h:783-834 | on an empty table a range of one page is answered for 512 pages |
| LargeSearch.FindUnmappedRegion | include/kernel/mem/paging.h:728-966 | which of the two answers a request of any size gets |
| PageQueries.GetPhysAddr | include/kernel/mem/paging.h:303-322 | the translation of the flat map, offset included, and the table is unchanged |
| PageQueries.IsMapped | include/kernel/mem/paging.h:334-351 | true if and only if every page of the range is present |
| PageQueries.IsUnmapped | include/kernel/mem/paging.h:363-381 | true if and only if no page of the range is present |
| PageQueries.CollectCallbacks | include/kernel/mem/paging.h:647-669 | each counter grows by the number of present pages with that id |
| PageQueries.CallbackRoundTrip | include/kernel/mem/paging.h:420-421 | the id split over an entry's low and high bits is read back |
| PageQueries.SetFlags | include/kernel/mem/paging.h:682-709 | which pages get which flags, where it stops, that it fails exactly at a page with a table and no mapping, and exactly when the frame accounts survive |
| PageQueries.OwnedKeptExactly | include/kernel/mem/paging.h:698-704 | every mapped page keeps its owned flag if and only if no page without it is asked for it or follows one that has it |
| PageQueries.AccountsKeptExactly | include/kernel/mem/paging.h:698-704 | the frames are still accounted for if and only if the same condition holds |
| PageQueries.GainsOwned | include/kernel/mem/paging.h:698-704 | after an owned page a shared one becomes an owner of its frame, and the accounts fail |
| BootMap.BasicAllocator.AllocPages | src/boot/main.c:411-425 | consecutive frames never handed out before, pairwise different, or a halt when too few are left |
| BootMap.BasicAllocator.AllocPage | src/boot/main.c:411-425 | one page at a time it is the allocator the page table assumes, and it halts only when nothing is left |
| BootMap.AssignAddresses | src/boot/main.c:317-321 | every descriptor gets the higher-half alias of its physical start |
| BootMap.MaxPhysicalAddress | src/boot/main.c:445-454 | the highest end of a region, start plus length at 64 bits, and it leaves room to round up if all starts are page aligned |
| BootMap.InitPageTable | src/boot/main.c:435-494 | if it does not halt, the identity map, every descriptor, the kernel and the framebuffer are mapped at once with their flags, every address of every region that does not wrap is its own virtual address, and nothing else is mapped; and what each halt means |
| BootMap.PagesExact | include/sys/proc.h:107 | the number of pages covers exactly the bytes if and only if the size is not in the last page of the address space |
| BootMap.HoldsKept | src/boot/main.c:456-493 | a later mapping disturbs no earlier one |
| BootMap.IdentityTranslates | src/boot/main.c:456-460 | every physical address below the highest region end translates to itself, writable and for the kernel only |
| BootMap.HigherHalfTranslates | src/boot/main.c:462-476 | the address of a descriptor plus the start of the higher half translates to it |
| Rounding.RoundUpLeast | include/sys/math.h:21-22 | the rounded value is the least multiple not below the number |
| Words.OpBits | include/sys/bitmap.h:199-253 | and, or and complement act on each bit |
| Words.MaskBits | include/sys/bitmap.h:223-295 | which bits each shifted mask holds |
| Words.CtzIs | include/sys/bitmap.h:324-371 | the count of trailing zeroes is the lowest set bit |
| Words.DropLow | include/sys/bitmap.h:60 | and-ing a word with its predecessor clears exactly the lowest set bit |
| Bitmaps.Bitmap.constructor | include/sys/bitmap.h:128-133 | the hint of a new bitmap is sound |
| Bitmaps.Bitmap.IsEmpty | include/sys/bitmap.h:141-163 | true if and only if no bit below the length is set |
| Bitmaps.Bitmap.IsSet | include/sys/bitmap.h:172-182 | agrees with the bit, and is false past the end |
| Bitmaps.Bitmap.Set | include/sys/bitmap.h:190-200 | exactly that bit is set, out-of-range indexes change nothing, the hint stays sound |
| Bitmaps.Bitmap.SetRange | include/sys/bitmap.h:209-236 | exactly the bits of the range become set, for every alignment to words |
| Bitmaps.Bitmap.Clear | include/sys/bitmap.h:244-255 | exactly that bit is cleared and the hint stays sound |
| Bitmaps.Bitmap.ClearRange | include/sys/bitmap.h:264-296 | exactly the bits of the range become clear and the hint stays sound |
| Bitmaps.Bitmap.FindFirstClear | include/sys/bitmap.h:306-340 | under a sound hint, the least clear index of the range; if none, an index not below the length |
| Bitmaps.Bitmap.FindFirstSet | include/sys/bitmap.h:350-380 | returns the value FirstSet of the bits before |
| Bitmaps.FirstSetIn | include/sys/bitmap.h:350-380 | that value is the least set index of the range, or an index not below the length if there is none |
| Bitmaps.Bitmap.FindClearRegionAndSet | include/sys/bitmap.h:392-420 | ends; takes the lowest aligned clear run and sets exactly its bits, or changes nothing and no such run exists |
| Bitmaps.Bitmap.SearchRegion | include/sys/bitmap.h:392-420 | stopped after any number of rounds, for regions of any length, the loop has found what Search says and set exactly those bits |
| Bitmaps.SearchRight | include/sys/bitmap.h:392-420 | for a region not longer than maxIdx the search ends with the lowest aligned clear run of the range, or none |
| Bitmaps.SearchRightOnlyIf | include/sys/bitmap.h:408-417 | for every bitmap with a sound hint the loop comes to the promised outcome if and only if the region is not longer than maxIdx; if it is longer than the bitmap the loop never ends |
| Bitmaps.LongRegionTaken | include/sys/bitmap.h:408-415 | on an empty bitmap of 128 bits a region of 16 with maxIdx 8 is taken past maxIdx |
| Bitmaps.Bitmap.ForEachSet | include/sys/bitmap.h:58-65 | lists the set bits below the length, each once, in ascending order |
| Ports.PortMap.Reserve | src/kernel/cpu/port.c:15-42 | the lowest aligned free base, or none exists; reserved ranges never overlap and the set bits are exactly their ports |
| Ports.PortMap.Release | src/kernel/cpu/port.c:44-52 | any range of ports is cut out of the reserved ranges, which stay apart and stay exactly the set bits; ranges past the end change nothing |
| Ports.CutHas | src/kernel/cpu/port.c:44-52 | exactly the ports of that range are no longer reserved |
| Ports.CutOne | src/kernel/cpu/port.c:44-52 | releasing a range that was reserved as one piece leaves the others as they are |
| RcuGrace.RunInv | src/kernel/sync/rcu.c:72-186 | every interleaving of reads, queuing and quiescent reports keeps the grace-period invariant |
| RcuGrace.GraceKept | src/kernel/sync/rcu.c:72-186 | each CPU runs the callbacks passed to it once, in order; one about to run has outlasted all read sections open when it was passed, as read off the run, unless it was set to wait for a period one of them had passed |
| RcuGrace.CallAnywhere | src/kernel/sync/rcu.c:72-86 | a callback can be passed at any time, and waits for the caller's own read section too |
| RcuGrace.StartsExactly | src/kernel/sync/rcu.c:135-148 | a period begins if and only if a CPU with waiting callbacks ends its report while none is under way |
| RcuGrace.GraceExact | src/kernel/sync/rcu.c:113-133 | in all continuations a callback does not run too early, if and only if no period was found active when it was tagged, or its readers are gone or have yet to acknowledge, or the period never ends |
| RcuGrace.LateRunsEarly | src/kernel/sync/rcu.c:131 | otherwise a run exists in which it does |
| RcuGrace.PromiseBroken | src/kernel/sync/rcu.c:113-162 | such a case is reached from the start with three CPUs |
| RcuGrace.StuckForever | src/kernel/sync/rcu.c:135-162 | a period with nobody to acknowledge it stays active in every run |
| RcuGrace.StuckReached | src/kernel/sync/rcu.c:135-162 | one idle CPU reaches such a period from the start, with a callback waiting |
| RcuGrace.NeverReady | src/kernel/sync/rcu.c:135-162 | and that callback is never run in any continuation |
| RcuGrace.CanEnd | src/kernel/sync/rcu.c:88-99 | a period with somebody to acknowledge it can be brought to its end from any reachable state |
| RcuList.RunInv | include/sys/list.h:245-314 | every interleaving of the writer's stores, the readers' loads and reclamation keeps the list invariant |
| RcuList.ReadersSafe | include/sys/list.h:58-60 | a reader can always take its next step on memory not reclaimed, meets only entries in the list since it began, each once and in order, and at the end all it was owed |
| RcuList.StayingEntryMet | include/sys/list.h:58-60 | an entry in the list from the beginning of an iteration to its end is met, whatever is added and removed meanwhile |
| RcuList.ReachesHead | include/sys/list.h:58-60 | left to run, a reader reaches the head within as many steps as entries lie ahead, and one |
| RcuList.IterationFindsList | include/sys/list.h:58-60 | an undisturbed iteration finds exactly the entries of the list |
| RcuList.Reclaimable | include/sys/list.h:299-314 | the memory of a removed entry can be had back in every state, without any reader that began after the removal having to end |
| RcuList.UnlinkInv | include/sys/list.h:307-311 | the first store of a removal takes the entry out for new readers and leaves a forward path for those standing on it |
| RcuList.PublishInv | include/sys/list.h:255-259 | the last store of an insertion adds the entry to a consistent list |
| RcuList.PublishedBetween | include/sys/list.h:245-260 | after an insertion the predecessor leads to the entry and the entry to the old successor, in both directions, and no other link changes |
| RcuList.PushBackLast | include/sys/list.h:337-343 | the run that adds an entry behind the head's predecessor is possible and puts it behind every other |
| RcuReuse.ReaddExact | include/sys/list.h:250-257 | each reader meets all it is owed in every continuation, if and only if it does not stand on the entry added again or on removed entries that lead to it, or no entry it is owed and has not met precedes the new place |
| RcuReuse.ReuseSkipsEntry | include/sys/list.h:250-257 | from the start a run leads to a reader that ends without an entry that never left the list |
| RcuUse.RunInv | src/kernel/sync/rcu.c:72-186 | every interleaving of list, readers, grace periods and callbacks that give entries back keeps both invariants and ties owed readers to removed entries |
| RcuUse.ReadersKeepMemory | src/kernel/sync/rcu.c:72-186 | no reader stands on memory a callback has given back, unless that callback was set to wait for a period its reader had passed |
| RcuUse.ReuseAllowed | src/kernel/sync/rcu.c:72-186 | so the memory such a callback gave back can be used again at once under the list's own condition |
| RcuUse.DanglingExact | src/kernel/sync/rcu.c:131 | the memory under a reader is kept in all continuations, if and only if no period was found active at the tag, or the reader has yet to acknowledge it, or it never ends |
| RcuUse.DanglingReached | src/kernel/sync/rcu.c:113-162 | from the start a run leads to a reader on memory given back |
| IntrusiveList.Add | include/sys/list.h:224-236 | the ring becomes the ring with the entry inserted at that place |
| IntrusiveList.Remove | include/sys/list.h:290-297 | the ring becomes the ring without the entry, which is on its own |
| IntrusiveList.List.IsEmpty | include/sys/list.h:210-215 | true if and only if there are no entries |
| IntrusiveList.List.PushBack | include/sys/list.h:322-329 | the entry is appended to the sequence |
| IntrusiveList.List.PushFront | include/sys/list.h:351-358 | the entry is put before the sequence |
| IntrusiveList.List.Append | include/sys/list.h:268-271 | the entry follows the given one |
| IntrusiveList.List.Prepend | include/sys/list.h:280-283 | the entry precedes the given one |
| IntrusiveList.List.PopFront | include/sys/list.h:366-378 | the first entry, detached, or null on an empty list |
| IntrusiveList.List.PopBack | include/sys/list.h:386-398 | the last entry, detached, or null on an empty list |
| IntrusiveList.List.Size | include/sys/list.h:478-488 | ends with the number of entries |
| IntrusiveList.InList | include/sys/list.h:197-202 | true if and only if the entry shares its ring with another |
| IntrusiveList.Transfer | include/sys/list.h:322-378 | moving an entry from one list to another leaves the rest of both as it was |
| IoRing.MaskExact | src/kernel/io/ring.c:407 | masking keeps a window of indices apart if and only if the number of entries is a power of two |
| IoRing.WrappedSlot | include/sys/ioring.h:266-289 | wrapping an index at 32 bits does not change the slot it names |
| IoRing.ProducerStep | include/sys/ioring.h:256-270 | every load and store of a push, with the other side's steps in between, keeps unread slots and counts |
| IoRing.ConsumerStep | include/sys/ioring.h:279-293 | every load and store of a pop keeps them too |
| IoRing.Refines | include/sys/ioring.h:256-293 | each step is a step of a bounded queue: the tail store enqueues the item its caller passed, the head store dequeues the item the consumer holds, and a slot half written is not seen |
| IoRing.Fifo | include/sys/ioring.h:256-293 | with one producer and one consumer, in every interleaving what is pushed is what the callers passed, what is popped is its beginning and as long as the run has pops, and at most the table's size is under way, also across index wrap-around |
| IoRing.ReportsExact | src/kernel/io/ring.c:138-144 | full and empty are reported exactly as of the load of the other side's index, and the kernel's count of completions is exact |
| RingRace.ManyProducersFifo | src/kernel/io/ring.c:188-215 | with any number of producers that push one at a time the same holds for what each producer passed |
| RingRace.RaceExact | src/kernel/io/ring.c:200-215 | as a push begins, no completion is lost in any continuation without a further overlap, if and only if no other push is under way |
| RingRace.CompletionLost | src/kernel/io/ring.c:200-215 | from the start two producers that load the same tail lose a completion |
| CancelCell.Conserved | include/kernel/io/irp.h:366-377 | in every interleaving the callbacks installed are those passed by the callers whose exchange succeeded; each is in the cell or was handed back to exactly one caller, and at most one canceller gets one |
| CancelCell.HoldsPassed | include/kernel/io/irp.h:366-377 | in every run a call under way has the value and purpose its caller passed and expects what it last saw |
| CancelCell.ExchangeExact | include/kernel/io/irp.h:366-377 | an exchange succeeds if and only if the cell holds what its caller last saw; then the cell holds what the caller passed, which is handed what was there; otherwise nothing changes, and the call ends if and only if it met the sentinel |
| CancelCell.Sticky | src/kernel/io/irp.c:331-353 | once a canceller has got a callback the sentinel stays for good and nobody else completes the packet |
| CancelCell.LeavesSentinel | src/kernel/io/irp.c:340-345 | a step takes the sentinel away if and only if it is the store of a canceller that had found NULL |
| CancelCell.AbandonedExactly | src/kernel/io/irp.c:355-362 | a completion is given up with nobody to take over if and only if it meets the sentinel before that store |
| CancelCell.LostCompletion | src/kernel/io/irp.c:331-362 | from any state without a callback such a run exists and leaves no trace |
| CancelCell.CompletedOnce | src/kernel/io/irp.c:331-362 | with one completing call and all callbacks installed before it, the packet is completed or given up at most once in every run, and once when that call has returned |
| CancelCell.OnceExactly | src/kernel/io/irp.c:331-362 | as a completion begins, it is the only one in all continuations without new callbacks, if and only if no callback is being installed or a canceller has got one already |
| CancelCell.LateInstaller | src/kernel/io/irp.c:331-362 | a callback installed after the completion lets it be completed twice |
| LockFreePool.Init | src/kernel/mem/pool.c:3-18 | all indices are free, in order |
| LockFreePool.ExchangeExact | src/kernel/mem/pool.c:35-37 | an exchange not overtaken by 2^48 others succeeds just when none has succeeded since its load |
| LockFreePool.LooksCurrent | src/kernel/mem/pool.c:35 | a remembered head looks current if and only if its index is on top and the exchanges since are a multiple of 2^48 |
| LockFreePool.LateAllocExact | src/kernel/mem/pool.c:32-37 | an exchange that succeeds, however late, keeps the pool sound if and only if the link read is still that of the top element |
| LockFreePool.FreeExchangeInv | src/kernel/mem/pool.c:53-62 | the exchange of a free keeps it sound however late it comes |
| LockFreePool.HandedOutTwice | src/kernel/mem/pool.c:20-46 | from the start a caller overtaken by exactly 2^48 exchanges makes the pool hand out an element in use |
| LockFreePool.RunInv | src/kernel/mem/pool.c:20-67 | every interleaving keeps each index in exactly one place: free, handed out, or on its way back |
| LockFreePool.NeverHandedOutTwice | src/kernel/mem/pool.c:20-46 | while no allocation tries its exchange after 2^48 others have overtaken it, an index handed out is in no one else's hands, whatever its former owners stored in the link field |
| LockFreePool.ReadsScribble | src/kernel/mem/pool.c:32-37 | from the start a caller can read any value its owner stored in the link of an element, and its exchange then fails |
| LockFreePool.ExhaustedExactly | src/kernel/mem/pool.c:25-30 | exhaustion is reported exactly when the free list is empty at the load |
| Display.EventQueue.Read | src/libpatchwork/display.c:9-19 | the oldest event, removed, or none |
| Display.EventQueue.Write | src/libpatchwork/display.c:21-32 | appended if and only if fewer than 63 events are queued |
| Display.EventQueue.Push | src/libpatchwork/display.c:21-32 | of events written one after the other exactly those that find room are queued |
| Display.EventQueue.Amount | src/libpatchwork/display.c:34-44 | the number of queued events |
| Display.EventQueue.TakeQueued | src/libpatchwork/display.c:347-366 | the first match, with what preceded it moved behind the rest; without a match nothing changes |
| Display.EventQueue.DispatchPending | src/libpatchwork/display.c:450-474 | dispatches exactly the events of that kind and target, in order; the others stay queued in order; what handlers push follows as far as there is room |
| Commands.HeaderRoundTrip | include/patchwork/cmd.h:40-45 | magic, type and size of a header are read back from its bytes |
| Commands.Process | src/boxes/core/dwm/client.c:384-425 | the two loops of the server compute which commands are carried out, or a refusal |
| Commands.ForEach | include/patchwork/cmd.h:131-134 | on a checked buffer the walk ends and sees the commands the checks saw |
| Commands.ServedFull | src/boxes/core/dwm/client.c:393-413 | whatever bytes arrive, every command carried out but the last is as long as its header, and so is the last unless bytes behind the buffer make up for it |
| Commands.ShortNeverServed | src/libpatchwork/display.c:185-191 | a short command followed by another is never carried out as allocated |
| Commands.DeliveredExactly | src/boxes/core/dwm/client.c:384-425 | whatever lies behind the packets, exactly the commands sent are carried out, if and only if each is full, fits the limit and has a known type |
| Commands.LargestRefused | src/boxes/core/dwm/client.c:386-391 | the largest command the client takes is sent and refused |
| Commands.Connection.Flush | src/libpatchwork/display.c:196-209 | the waiting bytes become one packet, or the connection is given up |
| Commands.Connection.Alloc | src/libpatchwork/display.c:171-194 | refused if and only if over 4096 bytes; otherwise the header stands at the offset returned, inside the buffer, behind all commands before it, which stay intact if all are full |
| Commands.Session | src/libpatchwork/display.c:171-209 | while writes succeed, the server carries out exactly the commands of the client, in order, if and only if each is at least 16 and at most 4080 bytes long and of a known type |
| ConfigArray.GetArray | src/libpatchwork/config.c:349-408 | the comma-separated, trimmed, non-empty pieces in order, none with a comma or one of the six blanks at either end, within the space allocated |
| ConfigArray.ItemsClean | src/libpatchwork/config.c:362-405 | no piece is empty, holds a comma, or has a blank at either end |
| ConfigArray.RoundTrip | src/libpatchwork/config.c:362-405 | splitting a comma-joined list of clean items returns the items |
| Rects.Subtract | include/patchwork/rect.h:97-127 | at most four pieces, pairwise disjoint, covering exactly the first rectangle without the other; areas add up with the intersection |
| Rects.AreaCounts | include/patchwork/rect.h:40 | the area of a rectangle is the number of points it contains |
| AcpiResources.ReadBack | include/kernel/acpi/resources.h:243-256 | name and size of an encoded small or large descriptor are read back |
| AcpiResources.Walk | include/kernel/acpi/resources.h:268-272 | the walk ends and yields exactly the names and sizes of the descriptors encoded |

## Left out

- LargeSearch.FindUnmappedRegion: the range lies in one half of the address space and below the topmost entry, whose end
  wraps, and alignments are taken for which rounding up does not wrap; below 512 pages they are multiples of the page size.
- LargeSearch.SearchHoles: the same ranges and alignments.
- PageSearch.FindSmallRegion: the same ranges and alignments.
- PageSearch.SearchPages: the same ranges and alignments.
- PageQueries.SetFlags: the range has at most 2^36 pages, so that no page is met twice.
- PageTables.PageTable.Clear: the reclaiming of empty levels is left out because its guard is never true.
- PageRuns.MapGiven: that a missing table does let a failure come later is shown by PageRuns.FreedBefore, not for every
  table, since whether it happens is up to the allocator.
- PageAlloc.MapWithdrawn: a caller that gives back the frames that are not free yet; src/kernel/io/ring.c:69 gives back
  all of them, which PageRuns.MapGiven and PageRuns.FreedBefore are about.
- PageAlloc.Alloc: the choice of an address, the test for pinned pages, the filling with zeroes and the lock are left out.
- Bitmaps.Bitmap.FindClearRegionAndSet: takes regions no longer than maxIdx, since the guard wraps beyond, and alignments
  for which rounding up does not wrap at 64 bits; Bitmaps.Bitmap.SearchRegion takes the others.
- RcuGrace.GraceKept: read sections inside a callback are not modelled.
- RcuList.ReadersSafe: backward iteration and the safe iteration macro are not modelled.
- RcuReuse.ReaddExact: the removal is complete, the stores that add the entry again are one step, and one entry is added
  again.
- RcuUse.DanglingExact: each CPU runs one iteration at a time inside its read section, and there is one list.
- LockFreePool.NeverHandedOutTwice: the counter of used elements is not modelled.
- CancelCell.Conserved: the reset of the cell by irp_call and irp_call_direct, done while one thread owns the packet, is
  not modelled.
- RingRace.RaceExact: the panic on a full completion ring is a push that is refused.
- Rects.Subtract: coordinates and areas are unbounded, so overflow of RECT_AREA at 32 bits is not covered.
- Commands.Session: packets arrive whole, one after the other; the bytes of a command behind its header are whatever the
  buffer holds, and the actions of the server are not modelled.
- Weak memory below the acquire and release points, translation caches, and interrupt masking are not modelled.
- page_table_count_pages_with_flags and page_table_is_pinned, which would add only easy members or, for the former, an
  exact count that does not hold for every range.
- The scheduler, the rest of the virtual memory manager, the file systems, sockets, the desktop's drawing code and the firmware calls
  of the boot loader.
