# Bethany kernel: a verified model

Bethany is a small x86-64 kernel. This project models the layers of it that keep state in
linked structures and bitmaps, and proves what those layers are for: the memory stack, the
scheduler with its blocking primitives, the bounded queue, the RAM file system, the switch
of stacks between tasks, and the cursor of the text terminal.

`dafny verify dfyconfig.toml` checks everything. Each component has two layers. The first
states on values what the code computes and proves the theorems about every run of it. The
second is a class, or a small machine, whose methods do to fields, arrays and records in
place, loop by loop, what the first layer computes; their `ensures` tie the new state to the
function of the old one.

| files | what they model |
|---|---|
| `Words`, `Lists` | 64-bit words, bitwise or; sequences without repetition |
| `Pmm` | the page allocator: a bitmap over several regions of memory |
| `Vmm`, `VmmBoot`, `VmmRange`, `PageTables` | the four-level page tables, as a refinement of a map from pages to entries, the state they start from, ranges of pages, and the tables in place |
| `Heap` | the bump allocator that grows page by page |
| `Objects`, `Sched`, `SchedRuns`, `SchedEffects` | tasks, the run list, mutexes, semaphores and events as one transition system, its runs, and what each operation does task by task |
| `Memory`, `KernelSteps`, `Kernel` | the same over records linked by `next` and `wait_next` |
| `Sync`, `Primitives`, `Queue`, `QueueItems` | mutexes and semaphores as values, their agreement with the scheduler, and the bounded queue and what becomes of its items under every interleaving |
| `Ramfs`, `RamfsMove`, `RamfsDelete`, `RamfsCopy`, `RamfsRuns` | the file system as a tree of values |
| `RamfsMemory`, `RamfsNodes` | the same over nodes linked by parent, first child and next sibling |
| `ContextSwitch`, `TaskStacks` | the fifteen pushes and pops, and tasks that switch among themselves |
| `Terminal` | cursor arithmetic |

Some of what the code does not check turned out to matter. For each such case there is an
exact condition and, where it fails, an input:

- a bitmap larger than its region: `Pmm.BitmapFitsIff`, with `Pmm.BitmapCanSpill`,
  `Pmm.BitmapCanCoverFreePage` and `VmmBoot.BitmapCanClearRoot`
- freeing a page that maps a table or the bitmap: `Vmm.FreePageKeepsIff`
- a range of pages for which the tables run out: `VmmRange.MapRangeMapsIff`
- sizes that wrap around: `Heap.KmallocFitsIff`, with `Heap.HugeRequestAliases`
- unlocking a mutex that somebody else holds: `Sched.ReleaseKeepsIff`
- moves of a node: `RamfsMove.MoveKeepsIff`, with `RamfsRuns.MoveCanCycle`
- writing nothing over a file: `Ramfs.WriteKeepsIff`, with `RamfsRuns.WriteCanLoseData`
- a cursor one past the edge: `Terminal.SetPositionKeepsIff`, with `Terminal.SetPositionCanLeave`

## Assumptions

- Each call of a mutex, semaphore or event, and each call of the scheduler, is one atomic
  step, although the timer interrupt reschedules (`kernel/src/interruptions/irq.c:30-33`) and
  nothing masks interrupts inside the primitives. Between those steps every interleaving is
  covered; in the queue, between the single lines of push and pop too.
- The idle task, kmain, never blocks, sleeps or exits. Without a ready task `scheduler_next`
  comes back to the current one whatever its state.
- A mutex that is held is unlocked by its holder. Tasks are joined after they were added to
  the scheduler.
- The bitmap fits (`Pmm.BitmapFits`): each page of it, counted from the base of the first
  usable region that has a page, has one of the leading bits that `pmm_init` sets. That
  region being large enough is sufficient; the code checks neither. Without it writing the
  bitmap may overwrite the boot loader's tables, and a table may later lie on the bitmap.
- The tables of the boot loader form a tree without huge pages and lie outside usable
  memory; physical page 0 is either not usable or part of the bitmap. Physical memory is
  reached directly through the higher-half window, and no call remaps that window.
  Where it matters that memory can be written (`Heap.BlocksAreUsable`), the inner entries of
  those tables allow it (`Vmm.Writable`).
- Callers free only what is theirs: `Vmm.Freeable` and `Vmm.Releasable` say what that is.
- There are at most 256 usable regions, the size of the table that `pmm_init` fills.
- File system nodes are created, named and filled without running out of heap, and a copy
  goes to a place outside its source.
- Stacks and the words that save stack pointers do not overlap, and a running task stays on
  its own stack.
- Ticks, semaphore counts, queue sizes and cursor sums do not reach the ends of their types.
  Where wrap-around matters, in heap sizes and in table entries, it is modelled.

## Model

| member | source | states |
|---|---|---|
| Pmm.IndexOfAddress | kernel/src/memory/pmm.c:83-112 | the region walk of free, applied to the address that the walk of alloc produced for an index, finds that index, across all regions |
| Pmm.AddressOfIndex | kernel/src/memory/pmm.c:83-112 | conversely, the index that free finds for any address inside a usable region is that of the frame holding the address |
| Pmm.AllocIsFresh | kernel/src/memory/pmm.c:77-94 | an allocation marks the lowest free frame and nothing else, returns its address and differs from every live one; it is NULL exactly when the pool is full or that frame is physical page 0 |
| Pmm.FullMeansNoneFree | kernel/src/memory/pmm.c:77-94 | allocation finds nothing exactly when every index is used |
| Pmm.FreeUndoesAlloc | kernel/src/memory/pmm.c:77-114 | freeing the frame just allocated restores the pool and every byte of the bitmap |
| Pmm.FreeIsExact | kernel/src/memory/pmm.c:96-114 | freeing any live frame after whatever other calls frees that frame alone and clears its one bit; setting the bit again restores every byte, and if the frame is then the lowest free one the next allocation returns it and restores the pool |
| Pmm.BitFrame | kernel/src/memory/pmm.c:23-33 | setting or clearing a bit changes the test of that bit and of no other |
| Pmm.BitTested | kernel/src/memory/pmm.c:31-33 | bit b lies in byte b / 8 under the mask of b mod 8, the lowest first |
| Pmm.BitSet | kernel/src/memory/pmm.c:23-25 | setting bit b is the or of that one byte with the mask |
| Pmm.BitCleared | kernel/src/memory/pmm.c:27-29 | clearing bit b is the and of that one byte with the complement of the mask |
| Pmm.AddressAt | kernel/src/memory/pmm.c:83-90 | index k behind the pages of the earlier regions is the k-th page of its region, counted from the base |
| Pmm.RegionOfEntry | kernel/src/memory/pmm.c:42-50 | the usable entries of the memory map give one region each, in their order, with the base of the entry and its whole pages |
| Pmm.RegionCount | kernel/src/memory/pmm.c:42-50 | no other entry gives a region |
| Pmm.RegionsAreUsable | kernel/src/memory/pmm.c:42-50 | an address lies in a region exactly when it lies in the whole pages of a usable entry |
| Pmm.FramesAreUsable | kernel/src/memory/pmm.c:36-94 | so no frame that can be handed out has a byte outside of usable memory |
| Pmm.BitmapSizes | kernel/src/memory/pmm.c:54-74 | the bitmap has the fewest bytes with a bit for every page, and takes the fewest pages with room for those |
| Pmm.FirstNonEmptyIs | kernel/src/memory/pmm.c:56-63 | the bitmap goes to the first region that has a page |
| Pmm.BitmapFitsIff | kernel/src/memory/pmm.c:54-74 | the leading bits that initialisation sets stand for every byte of the bitmap exactly when each page of the bitmap, from the base of the first region with a page, has a leading bit |
| Pmm.LargeRegionFits | kernel/src/memory/pmm.c:56-63 | that is so whenever the first region with a page has room for the bitmap |
| Pmm.BitmapIsCovered | kernel/src/memory/pmm.c:54-74 | then no frame beyond the leading indices shares a byte with the bitmap |
| Pmm.BitmapCanSpill | kernel/src/memory/pmm.c:56-63 | one page followed by a large region elsewhere: the bitmap covers an address that is in no usable region |
| Pmm.BitmapCanCoverFreePage | kernel/src/memory/pmm.c:56-74 | when the page behind the first region is usable but listed last, the bitmap covers a page that is free after initialisation |
| Pmm.Allocator.FillRegions | kernel/src/memory/pmm.c:42-50 | the table receives the usable regions in order, in whole pages |
| Pmm.Allocator.Init | kernel/src/memory/pmm.c:36-75 | succeeds exactly when some usable region has a page; then the bitmap starts at the first such region and has one bit for each page, exactly its leading bits are set, and these mark every byte of the bitmap as used exactly when the bitmap fits |
| Pmm.Allocator.SetBit | kernel/src/memory/pmm.c:23-25 | marks one index used in the array of bytes, in place |
| Pmm.Allocator.ClearBit | kernel/src/memory/pmm.c:27-29 | marks one index free in the array of bytes, in place |
| Pmm.Allocator.PageAt | kernel/src/memory/pmm.c:83-90 | the walk over the regions computes the address of an index |
| Pmm.Allocator.AllocPage | kernel/src/memory/pmm.c:77-94 | in place, the scan sets exactly the bit of the lowest free index and returns its address, or returns NULL and changes no byte when all bits are set |
| Pmm.Allocator.FreePage | kernel/src/memory/pmm.c:96-114 | in place, clears exactly the bit of the frame that holds the address; NULL and foreign addresses change no byte, and the latter are reported |
| Words.OrIsSum | kernel/src/memory/vmm.c:235 | the bitwise or of a frame address with flag bits 0-11 and 63 shares no bit and is their sum |
| Words.OrBits | kernel/src/memory/vmm.c:216 | bit by bit, the or of two words is set where one of them is |
| Vmm.PageOfIsPageNumber | kernel/src/memory/vmm.c:36-50 | the four 9-bit indices are those of two addresses alike exactly when bits 12-47 agree |
| Vmm.TranslateIsHardwareWalk | kernel/src/memory/vmm.c:56-62 | the software walk, which never looks at the huge-page bit, agrees on every table the invariant allows with the processor's walk, stated by the bits of the format alone (section 4.5 of volume 3A of the Intel manual); both find something exactly when bit 0 of the page's entry is set |
| Vmm.TranslateLooks | kernel/src/memory/vmm.c:173-194 | translation yields bits 12-51 of the page's entry plus the offset when bit 0 of it is set, and 0 otherwise |
| Vmm.AddTableKeeps | kernel/src/memory/vmm.c:203-220 | linking a fresh cleared table keeps the tree and the ownership of frames, costs one page and changes no translation |
| Vmm.EnsureKeeps | kernel/src/memory/vmm.c:223-233 | descending succeeds exactly when the pool has a page for each missing table, takes exactly those, and changes no translation even when it fails half-way |
| Vmm.PutKeeps | kernel/src/memory/vmm.c:222-256 | map and unmap change the entry of their own page exactly when the tables can be completed, and no other entry, table or owner |
| Vmm.MapTranslates | kernel/src/memory/vmm.c:222-238 | after a map with any flags in which bit 0 is set, the page's entry is the frame plus the flags and both walks take every address of the page to the frame, or the tables ran out and nothing translates differently; every other page translates as before |
| Vmm.UnmapAlwaysWorks | kernel/src/memory/vmm.c:240-256 | after an unmap the page is not mapped even when the walk ran out of pages, and no other entry changed |
| Vmm.IsMappedIsExact | kernel/src/memory/vmm.c:258-274 | the query answers whether bit 0 of the entry is set, that is whether the processor finds the page, and changes no entry, although it may allocate tables |
| Vmm.AllocPageBacks | kernel/src/memory/vmm.c:276-283 | reports success exactly when the pool is not empty; the entry of the page is the frame plus the flags exactly when there are pages for the missing tables too, and otherwise the frame is lost |
| Vmm.FreePageReturnsItsFrame | kernel/src/memory/vmm.c:285-293 | freeing a backed page unmaps it and returns exactly the frame that backed it |
| Vmm.FreePageKeeps | kernel/src/memory/vmm.c:285-293 | freeing a page whose frame is its own, a caller's, lost or foreign keeps the invariant and changes the entry of its own page only |
| Vmm.FreePageKeepsIff | kernel/src/memory/vmm.c:285-293 | whoever owns the frame, freeing keeps the invariant exactly when it is neither the bitmap's nor a table |
| Vmm.GiveKeepsIff | kernel/src/memory/pmm.c:96-114 | the same for a frame given straight back to the page allocator |
| Vmm.DataIsExclusive | kernel/src/memory/vmm.c:276-293 | two backed pages have different frames, and no such frame is a page table |
| VmmBoot.BootKeeps | kernel/src/memory/pmm.c:56-74 | when the bitmap fits, writing its bytes over memory leaves the boot loader's tables as they were, and what the two initialisers leave satisfies the invariant of every run |
| VmmBoot.BitmapCanClearRoot | kernel/src/memory/pmm.c:70 | with one page and a large region elsewhere, writing the bitmap clears every entry of a root table that lies right behind the page |
| VmmBoot.TreeIsBootable | kernel/src/memory/vmm.c:94-100 | tables outside of usable memory, each at an address of its own and reached by exactly one entry, in which bit 0 goes with the address of the table below and no huge page: spelled out bit by bit, this is enough for the condition on the boot loader that the model uses |
| VmmBoot.OverlayBytes | kernel/src/memory/pmm.c:70 | writing the bitmap changes exactly the bytes that it covers |
| VmmBoot.BootWritable | kernel/src/memory/vmm.c:94-100 | if the inner entries of the boot loader allow writing, so does every inner entry after boot |
| Vmm.RunKeeps | kernel/src/memory/vmm.c:173-293 | in every run the tables stay a tree, each table hanging from one slot; the set bits are exactly the bitmap's own frames, the tables, the frames behind pages, those callers hold and those lost, each frame with one owner, and the frames owned by the bitmap are exactly its leading indices |
| Vmm.RunAvoidsBitmap | kernel/src/memory/vmm.c:203-293 | when the bitmap fits, in every reachable state no table, no frame behind a page, none held and none still free contains a byte of the bitmap |
| Vmm.BitmapOwnsItsBytesIff | kernel/src/memory/vmm.c:203-293 | in every reachable state all bytes of the bitmap lie in frames owned by it exactly when the bitmap fits |
| Vmm.StepKeepsOwner | kernel/src/memory/vmm.c:173-293 | bitmap frames, tables and the frames behind pages that an operation does not name keep their owner |
| Vmm.StepRefines | kernel/src/memory/vmm.c:173-293 | each operation is one update, or none, of a partial map from pages to entries |
| Vmm.RunRefines | kernel/src/memory/vmm.c:173-293 | after any run an address translates as the entry last given to its page says, and the processor's walk faults or agrees |
| Vmm.WritableIff | kernel/src/memory/vmm.c:203-238 | while every inner entry allows writing, the processor lets an address be written exactly when bits 0 and 1 of its page's entry are set |
| Vmm.AddTableWritable | kernel/src/memory/vmm.c:203-220 | a new table is linked with bits 0 and 1, so that this stays so |
| Vmm.StepWritable | kernel/src/memory/vmm.c:173-293 | it stays so under every operation |
| VmmRange.MapRangeMapsIff | kernel/src/memory/vmm.c:303-305 | every page of a range gets its frame plus the flags exactly when the pool has a page for each table missing along the range, each counted once; then both walks take each address to its frame, for all flags in which bit 0 is set |
| VmmRange.PagesCover | kernel/src/memory/vmm.c:303-305 | the loop runs for exactly those multiples of the page size that lie below the size |
| VmmRange.WrapPage | kernel/src/memory/vmm.c:303-305 | an address that wraps around 2^64 names the same page as the sum that does not |
| VmmRange.MapRangeElsewhere | kernel/src/memory/vmm.c:303-305 | pages outside the range keep their entries whether or not the tables run out |
| PageTables.Mapper.constructor | kernel/src/memory/vmm.c:94-100 | adopts the tables in CR3 |
| PageTables.Mapper.NextTable | kernel/src/memory/vmm.c:56-62 | the table at bits 12-51 of an entry, NULL when bit 0 of it is clear |
| PageTables.Mapper.TranslateAddress | kernel/src/memory/vmm.c:173-194 | the code's walk returns what the processor's walk of the same tables finds, 0 for a fault |
| PageTables.Mapper.ClearTable | kernel/src/memory/vmm.c:197-201 | the loop zeroes the whole table and nothing else |
| PageTables.Mapper.EnsureTable | kernel/src/memory/vmm.c:203-220 | in place, returns the existing table or links a new cleared one, NULL when no page is left |
| PageTables.Mapper.EnsureTables | kernel/src/memory/vmm.c:223-233 | the three calls reach the page table of the address, or fail as the descent on values does |
| PageTables.Mapper.Map | kernel/src/memory/vmm.c:222-238 | in place, the map on values; the invariant holds again |
| PageTables.Mapper.Unmap | kernel/src/memory/vmm.c:240-256 | in place, the unmap on values; the invariant holds again |
| PageTables.Mapper.IsMapped | kernel/src/memory/vmm.c:258-274 | answers whether the page was present, that is whether the processor finds it |
| PageTables.Mapper.AllocPage | kernel/src/memory/vmm.c:276-283 | in place, backs a page as on values |
| PageTables.Mapper.FreePage | kernel/src/memory/vmm.c:285-293 | in place, frees a page as on values |
| PageTables.Mapper.MapRange | kernel/src/memory/vmm.c:303-305 | the loop maps the pages of the range one by one, rounding the size up, with addresses modulo 2^64 |
| PageTables.Boot | kernel/src/main.c:142-146 | when the bitmap fits, initialising the page allocator, whose bitmap is written over memory, and adopting the tables gives a mapper that satisfies the invariant, or halts when no region has a page |
| Heap.AlignUpRounds | kernel/src/memory/heap.c:11-13 | sizes whose rounding does not wrap are rounded up to the least multiple of 16 |
| Heap.InitValid | kernel/src/memory/heap.c:15-21 | the heap starts sound and without blocks at 0xFFFF900000000000, with one page exactly when the pool has one |
| Heap.GrowPageKeeps | kernel/src/memory/heap.c:28-32 | growing by a page keeps every heap page on a frame of its own, present and writable, or a known hole, and keeps blocks, also when it fails; it fails exactly when the pool is empty |
| Heap.KmallocKeeps | kernel/src/memory/heap.c:23-38 | a request that does not wrap returns the bump pointer, which moves on by the rounded size, and so a block above all others; it returns NULL and no block only for size 0 or with the pool used up, and the heap stays sound also after a failure that had grown it |
| Heap.KmallocBackedIff | kernel/src/memory/heap.c:23-38 | a request succeeds and leaves no hole exactly when there is a frame for each page to grow and for each table missing along those pages, counted once |
| Heap.KmallocBacked | kernel/src/memory/heap.c:23-38 | so four spare frames for each page to grow are enough |
| Heap.KmallocFitsIff | kernel/src/memory/heap.c:11-38 | a granted block ends below the bump pointer exactly when neither the rounding nor the addition wraps around 2^64 |
| Heap.HugeRequestAliases | kernel/src/memory/heap.c:11-38 | the largest size is granted at once and leaves the bump pointer where it was, so that the next block overlaps |
| Heap.OtherKeeps | kernel/src/memory/vmm.c:222-293 | the heap stays sound under any mapping, unmapping or freeing that names no heap page |
| Heap.RunKeeps | kernel/src/memory/heap.c:23-38 | the heap is sound after every run of requests that do not wrap, mixed with such operations |
| Heap.BlocksAreSound | kernel/src/memory/heap.c:23-38 | every block ever granted is 16-aligned and inside the heap, and each byte of it lies on a page with a frame of its own unless that page is a hole |
| Heap.BlocksAreUsable | kernel/src/memory/heap.c:15-38 | in every run, each byte of every granted block that is not in a hole has an entry with bits 0 and 1 set and bit 63 clear, the processor finds it at its frame, and it may be written on the whole way down |
| Heap.BlocksAreDisjoint | kernel/src/memory/heap.c:23-38 | no two blocks granted in a run overlap |
| Heap.PagesHaveOwnFrames | kernel/src/memory/vmm.c:276-283 | two heap pages that are not holes are present and writable at different frames, which are no page tables and, when the bitmap fits, hold no byte of it |
| Heap.KernelHeap.Init | kernel/src/memory/heap.c:15-21 | in place, sets the three pointers and asks for the first page, present and writable |
| Heap.KernelHeap.GrowOnce | kernel/src/memory/heap.c:28-32 | in place, one page more at the end of the heap |
| Heap.KernelHeap.Kmalloc | kernel/src/memory/heap.c:23-38 | the loop grows the heap and the pointer moves as on values, with sums modulo 2^64; a request that does not wrap leaves the heap sound |
| Sched.PickFirstReady | kernel/src/scheduler/scheduler.c:56-69 | the search stops at the first ready task met on the way round, or where it began |
| Sched.ScheduleKeeps | kernel/src/scheduler/scheduler.c:97-119 | a call of the scheduler made while the current task may be in any state restores the full invariant with a running current task |
| Sched.StepKeeps | kernel/src/scheduler/task.c:111-158 | every step keeps the invariant, and a step that blocks, sleeps or exits really gives the processor to another task |
| Sched.ReleaseKeepsIff | kernel/src/sync/mutex.c:34-47 | unlocking keeps the invariant, with at most one holder and none of a free mutex, exactly when the mutex is free, the caller holds it, or its holder is itself the next one waiting |
| SchedRuns.BootKeeps | kernel/src/scheduler/scheduler.c:31-34 | the state that `scheduler_init` and the initialisers of the primitives leave satisfies the invariant |
| SchedRuns.RunKeeps | kernel/src/scheduler/scheduler.c:36-119 | every run keeps the invariant |
| SchedRuns.OneRunning | kernel/src/scheduler/scheduler.c:97-119 | in every reachable state exactly the current task is running, the list has no repetition and contains it, and at most one dead task is pending, which is not the current one |
| SchedRuns.ChainsPartitionBlocked | kernel/src/scheduler/task.c:111-158 | although all waiter chains share one link per task, they are acyclic and pairwise disjoint and together hold exactly the blocked tasks |
| SchedRuns.MutualExclusion | kernel/src/sync/mutex.c:10-47 | a mutex has at most one holder, also across hand-over, has one exactly when locked, and is locked while anyone waits |
| SchedRuns.SemaphoreConserves | kernel/src/sync/semaphore.c:10-49 | initial count plus signals equals count plus granted waits, and nobody waits while the count is positive |
| SchedRuns.NoSleeperWakesEarly | kernel/src/scheduler/scheduler.c:11-29 | in any run a sleeper stays asleep until its tick has come |
| SchedRuns.SleepLasts | kernel/src/scheduler/task.c:137-144 | a task that sleeps n ticks does not run again before n ticks have passed |
| SchedRuns.DeadStaysDead | kernel/src/scheduler/task.c:111-135 | a dead task never becomes ready again |
| SchedRuns.ReapedByNextSchedule | kernel/src/scheduler/scheduler.c:71-119 | the pending dead task is on no chain and not current, and the next call of the scheduler unlinks it and keeps the order of the others |
| SchedRuns.ScheduleBringsCloser | kernel/src/scheduler/scheduler.c:97-119 | each call of the scheduler runs a given ready task or brings the current one strictly closer to it round the list, reaping included |
| SchedRuns.BoundedBypass | kernel/src/scheduler/scheduler.c:56-119 | a ready task at cyclic distance d runs before the scheduler has been called more than d times, whatever else happens, while no task is added |
| SchedEffects.BootIs | kernel/src/scheduler/scheduler.c:31-34 | at the start kmain runs alone, every mutex is free, every event reset, every chain empty, and every semaphore has the count it was given and that for its initial permits |
| SchedEffects.ScheduleIs | kernel/src/scheduler/scheduler.c:97-119 | one call of the scheduler, task by task: the pending dead task goes, exactly the sleepers whose tick has come are made ready, the chosen task runs, the one that ran is ready again if it was still running, and nobody else changes |
| SchedEffects.SleepersWoken | kernel/src/scheduler/scheduler.c:11-29 | nobody sleeps past a call of the scheduler at or after their tick |
| SchedEffects.ScheduleDooms | kernel/src/scheduler/scheduler.c:97-119 | the new pending dead task is the one that just left the processor, if it is dead |
| SchedEffects.AddsLast | kernel/src/scheduler/scheduler.c:36-50 | an added task is ready and behind all others, and nothing else changes |
| SchedEffects.ExitDies | kernel/src/scheduler/task.c:111-135 | a task that exits is dead, pending and not current any more |
| SchedEffects.SleepsUntil | kernel/src/scheduler/task.c:137-144 | a task that sleeps n ticks sleeps until exactly n ticks from now; for n = 0 it is ready at once |
| SchedEffects.JoinQueues | kernel/src/scheduler/task.c:146-158 | joining a task that is alive and not the caller puts the caller in front of its chain and blocks it; any other joining changes nothing |
| SchedEffects.TryLockTakes | kernel/src/sync/mutex.c:10-16 | a free mutex is locked for the caller, one that is held is left alone |
| SchedEffects.LockQueues | kernel/src/sync/mutex.c:18-32 | a free mutex is taken as by an attempt; otherwise the caller is put in front of its chain and blocks |
| SchedEffects.TryWaitTakes | kernel/src/sync/semaphore.c:10-16 | a permit that is there is taken, otherwise nothing changes |
| SchedEffects.WaitQueues | kernel/src/sync/semaphore.c:18-32 | a permit is taken as by an attempt; without one the caller is put in front of the chain and blocks |
| SchedEffects.WaitEventQueues | kernel/src/sync/event.c:10-21 | an event that is set lets the caller go on unchanged; otherwise the caller is put in front of the chain and blocks |
| SchedEffects.SetWakesAll | kernel/src/sync/event.c:23-39 | setting an event makes exactly its waiters ready, leaves it set and its chain empty |
| SchedEffects.ResetsOnly | kernel/src/sync/event.c:41-43 | resetting clears the flag and nothing else |
| SchedEffects.WaitEnds | kernel/src/scheduler/task.c:111-158 | a wait ends only when the mutex is handed over, a permit is handed over, the event is set, or the joined task exits, as the kind of wait demands |
| SchedEffects.BlockedWaits | kernel/src/scheduler/scheduler.c:97-119 | in a reachable state exactly the blocked tasks wait |
| SchedEffects.RunBalance | kernel/src/sync/semaphore.c:10-49 | over any run the count less the waiters changes by the signals, less the waits and the attempts that took a permit |
| SchedEffects.PermitsAccounted | kernel/src/sync/semaphore.c:5-49 | from the start on, the count less the waiters is the initial count plus the signals, less the waits and the successful attempts, and nobody waits while the count is positive |
| Kernel.Kernel.constructor | kernel/src/scheduler/scheduler.c:31-34 | the records and static variables at the start |
| Kernel.Kernel.SchedulerUpdate | kernel/src/scheduler/scheduler.c:11-29 | the walk over `next` makes exactly the sleepers whose tick has come ready |
| Kernel.Kernel.SchedulerAdd | kernel/src/scheduler/scheduler.c:36-50 | the new record is linked behind the last one |
| Kernel.Kernel.SchedulerNext | kernel/src/scheduler/scheduler.c:56-69 | the loop over `next` finds the next task of the model |
| Kernel.Kernel.FindBefore | kernel/src/scheduler/scheduler.c:84-86 | the walk ends at the record before the one looked for, or at the last one |
| Kernel.Kernel.SchedulerRemove | kernel/src/scheduler/scheduler.c:71-95 | unlinking a record keeps all others linked in order and moves `current` on; a dead task leaves a record that says dead |
| Kernel.Kernel.SchedulerSchedule | kernel/src/scheduler/scheduler.c:97-119 | reap, update, search and the two state changes over the records are one scheduler step of the model |
| Kernel.Kernel.TaskCreate | kernel/src/scheduler/task.c:55-74 | a new record, ready and linked to nothing |
| Kernel.Kernel.TaskYield | kernel/src/scheduler/task.c:15-17 | one scheduler step |
| Kernel.Kernel.TaskExit | kernel/src/scheduler/task.c:111-135 | the walk over `wait_next` wakes exactly the joiners and clears their links before the task dies |
| Kernel.Kernel.TaskSleep | kernel/src/scheduler/task.c:137-144 | the sleeping step of the model over the records |
| Kernel.Kernel.TaskJoin | kernel/src/scheduler/task.c:146-158 | the joining step; it returns at once for the task itself and for a dead one, also when that was reaped, whose record is still dead in every state |
| Kernel.Kernel.WakeChain | kernel/src/sync/event.c:26-38 | the loop clears the link of every waiter and makes it ready, and nothing else |
| Kernel.Kernel.MutexTryLock | kernel/src/sync/mutex.c:10-16 | takes the lock exactly when it is free |
| Kernel.Kernel.MutexLock | kernel/src/sync/mutex.c:18-32 | takes a free lock, otherwise queues the current record and schedules |
| Kernel.Kernel.MutexUnlock | kernel/src/sync/mutex.c:34-47 | frees the lock or hands it to the waiter that came last, for every caller for whom that keeps the invariant |
| Kernel.Kernel.SemaphoreTryWait | kernel/src/sync/semaphore.c:10-16 | takes a permit exactly when there is one |
| Kernel.Kernel.SemaphoreWait | kernel/src/sync/semaphore.c:18-32 | takes a permit, otherwise queues the current record and schedules |
| Kernel.Kernel.SemaphoreSignal | kernel/src/sync/semaphore.c:34-49 | hands the permit to the waiter that came last, or counts it |
| Kernel.Kernel.EventWait | kernel/src/sync/event.c:10-21 | returns when signaled, otherwise queues the current record and schedules |
| Kernel.Kernel.EventSet | kernel/src/sync/event.c:23-39 | wakes every waiter and leaves the chain empty |
| Kernel.Kernel.EventReset | kernel/src/sync/event.c:41-43 | clears the flag |
| Primitives.LockAgrees | kernel/src/sync/mutex.c:18-32 | locking in the scheduler is locking of a mutex value: taken at once exactly when the task does not block |
| Primitives.UnlockAgrees | kernel/src/sync/mutex.c:34-47 | unlocking hands the mutex to the task the value names, which is ready and its holder |
| Primitives.WaitAgrees | kernel/src/sync/semaphore.c:18-32 | waiting in the scheduler is waiting on a semaphore value |
| Primitives.SignalAgrees | kernel/src/sync/semaphore.c:34-49 | signalling hands the permit to the task the value names, now ready |
| Sync.LockIs | kernel/src/sync/mutex.c:18-47 | on a mutex value: a task that finds it taken is the next it is handed to, and unlocking undoes the queueing |
| Sync.WaitIs | kernel/src/sync/semaphore.c:18-49 | on a semaphore value: a permit is taken, or the task is the next to be handed one, and the signal undoes the queueing; without waiters a signal adds a permit |
| Queue.StepKeeps | kernel/src/sync/queue.c:39-81 | every line of push and pop, by any thread, keeps permits, exclusion, chains, indices and contents in step |
| Queue.PermitsConserved | kernel/src/sync/queue.c:39-81 | under every interleaving the two counts, the pushers and the poppers in flight add up to the capacity |
| Queue.MutualExclusion | kernel/src/sync/queue.c:45-76 | at most one thread is between lock and unlock |
| Queue.FirstInFirstOut | kernel/src/sync/queue.c:47-74 | the items popped are a prefix of the items pushed, and the ring holds the rest from head onwards; size has moved by their number from whatever it was, which `queue_init` does not set |
| Queue.StoreHitsFreeSlot | kernel/src/sync/queue.c:47 | no store overwrites an unread item |
| Queue.LoadReadsOldest | kernel/src/sync/queue.c:68 | every load reads the oldest unread item |
| Queue.StuckMeansFullOrEmpty | kernel/src/sync/queue.c:39-81 | no wake-up is lost: when no thread can move, nobody waits for the lock, pushers wait only on a full ring and poppers only on an empty one |
| QueueItems.StepTracks | kernel/src/sync/queue.c:39-81 | every line, by any thread, keeps the account of what each thread was given, stored, loaded and returned |
| QueueItems.PopsReturnPushes | kernel/src/sync/queue.c:39-81 | over every run, what a thread stored are the arguments of its pushes other than NULL, in order, but for the one in flight; what it returned from its pops is what its own loads read, one for each pop, but for the one in flight; and all loads together are a prefix of all stores together |
| Ramfs.CreateFailsIff | kernel/src/filesystem/ramfs/ramfs.c:46-50 | creating fails exactly when there is no parent, it is no directory, or a child has the name |
| Ramfs.CreateKeeps | kernel/src/filesystem/ramfs/ramfs.c:46-80 | creating keeps the finite rooted tree |
| Ramfs.CreatedIsFound | kernel/src/filesystem/ramfs/ramfs.c:32-80 | a node just created is the one found by its name |
| Ramfs.CreatesOnlyThat | kernel/src/filesystem/ramfs/ramfs.c:46-80 | a node just created has the name and kind asked for and no data, is the last child, and changes nothing else; a failing call changes nothing |
| Ramfs.RemoveKeeps | kernel/src/filesystem/ramfs/ramfs.c:82-105 | removing keeps the finite rooted tree |
| Ramfs.RemovesOnlyLeaf | kernel/src/filesystem/ramfs/ramfs.c:82-105 | a leaf goes, with its place among the siblings closed; the root and nodes with children are left alone |
| Ramfs.RenameKeeps | kernel/src/filesystem/ramfs/ramfs.c:169-182 | renaming keeps the tree and sibling names distinct |
| Ramfs.RenamesOnlyThat | kernel/src/filesystem/ramfs/ramfs.c:169-182 | a renaming that succeeds changes the name of the node to the one given, and nothing else; one that fails changes nothing |
| Ramfs.RenamedIsFound | kernel/src/filesystem/ramfs/ramfs.c:32-44 | the node is then found under the new name, and nothing under the old one |
| Ramfs.RenameFailsIff | kernel/src/filesystem/ramfs/ramfs.c:169-182 | renaming fails exactly when a sibling, perhaps the node itself, has the name; the root always can |
| Ramfs.WriteKeepsIff | kernel/src/filesystem/ramfs/ramfs.c:150-167 | a write keeps size and data in step exactly when it writes something or the file was empty |
| Ramfs.WritesOnlyThat | kernel/src/filesystem/ramfs/ramfs.c:150-167 | a write succeeds exactly for a file and at least one byte; it replaces data and size of that node alone, and with no bytes takes the data and leaves the size |
| RamfsRuns.WriteCanLoseData | kernel/src/filesystem/ramfs/ramfs.c:150-167 | a file of one byte over which nothing is written keeps its size and has no data |
| Ramfs.ReadsWhatWasWritten | kernel/src/filesystem/ramfs/ramfs.c:133-167 | any piece of what was written is read back, cut at the end |
| Ramfs.ReadsOnlyFiles | kernel/src/filesystem/ramfs/ramfs.c:133-148 | directories and offsets past the end read nothing; otherwise as much as is there, up to the size asked for |
| RamfsMove.MoveKeepsIff | kernel/src/filesystem/ramfs/ramfs.c:184-220 | a move that goes through keeps the tree exactly when the destination is a directory outside the subtree with no other child of that name |
| RamfsMove.MoveRefusedIff | kernel/src/filesystem/ramfs/ramfs.c:184-196 | a move is refused exactly for the root, onto the node itself or onto its first child, and then changes nothing |
| RamfsMove.MoveCarries | kernel/src/filesystem/ramfs/ramfs.c:184-220 | a legal move carries the whole subtree unchanged to the end of the new siblings and changes no other parent |
| RamfsRuns.MoveCanCycle | kernel/src/filesystem/ramfs/ramfs.c:189-196 | the tests of the code let a directory move into its grandchild, which breaks the tree |
| RamfsDelete.DeletedKeeps | kernel/src/filesystem/ramfs/ramfs.c:272-279 | deleting keeps the finite rooted tree |
| RamfsDelete.DeletesOnlySubtree | kernel/src/filesystem/ramfs/ramfs.c:272-279 | node by node: what is below goes, all else stays as it was, but for the gap among the siblings |
| RamfsDelete.DeleteStep | kernel/src/filesystem/ramfs/ramfs.c:272-279 | each turn of the recursive loop removes one more child with all below it |
| RamfsDelete.DeleteLast | kernel/src/filesystem/ramfs/ramfs.c:272-279 | the turns and the final remove take away exactly the node and everything below it, of the root only what is below it, and keep the order of all others |
| RamfsCopy.GraftedKeeps | kernel/src/filesystem/ramfs/ramfs.c:222-270 | every intermediate state of a copy is a finite rooted tree |
| RamfsCopy.NextNameFree | kernel/src/filesystem/ramfs/ramfs.c:260-267 | inside the copy no child needs another name, and each recursive call has a place outside its source |
| RamfsCopy.GraftStep | kernel/src/filesystem/ramfs/ramfs.c:260-267 | copying the next child extends the pairing of old and new nodes to one more child |
| RamfsCopy.CopyFitsIff | kernel/src/filesystem/ramfs/ramfs.c:222-245 | a copy is made exactly when the destination is a directory with the name or the name with `_copy` free |
| RamfsCopy.CopyNameIs | kernel/src/filesystem/ramfs/ramfs.c:222-245 | the copy keeps the name where that is free, and otherwise gets `_copy` behind it |
| RamfsCopy.DeleteUndoesCopy | kernel/src/filesystem/ramfs/ramfs.c:222-279 | deleting the copy gives back the file system as it was |
| RamfsRuns.InitValid | kernel/src/filesystem/ramfs/ramfs.c:9-26 | the root alone, the directory `/` without data, is a valid file system |
| RamfsRuns.StepKeeps | kernel/src/filesystem/ramfs/ramfs.c:46-279 | every operation keeps the file system a finite rooted tree with agreeing parents, distinct sibling names and children only under directories |
| RamfsRuns.RunKeeps | kernel/src/filesystem/ramfs/ramfs.c:46-279 | so does every run |
| RamfsRuns.AllBelowRoot | kernel/src/filesystem/ramfs/ramfs.c:46-279 | in such a file system every node is reached from the root |
| RamfsRuns.RemoveUndoesCreate | kernel/src/filesystem/ramfs/ramfs.c:46-105 | removing a node just created gives back the file system as it was |
| RamfsNodes.RamFileSystem.constructor | kernel/src/filesystem/ramfs/ramfs.c:9-26 | the root node |
| RamfsNodes.RamFileSystem.FindChild | kernel/src/filesystem/ramfs/ramfs.c:32-44 | the walk over the siblings finds the first child with the name |
| RamfsNodes.RamFileSystem.CreateNode | kernel/src/filesystem/ramfs/ramfs.c:46-80 | in place, a new last sibling or NULL as on values |
| RamfsNodes.RamFileSystem.RemoveNode | kernel/src/filesystem/ramfs/ramfs.c:82-105 | in place, unlinks a leaf from its siblings |
| RamfsNodes.RamFileSystem.ReadNode | kernel/src/filesystem/ramfs/ramfs.c:133-148 | the bytes that reach the buffer, and no access outside the data |
| RamfsNodes.RamFileSystem.WriteNode | kernel/src/filesystem/ramfs/ramfs.c:150-167 | in place, the write on values; size and data are in step afterwards exactly when something was written, the file was empty or the node is no file |
| RamfsNodes.RamFileSystem.RenameNode | kernel/src/filesystem/ramfs/ramfs.c:169-182 | in place, the renaming on values |
| RamfsNodes.RamFileSystem.MoveNode | kernel/src/filesystem/ramfs/ramfs.c:184-220 | in place, relinks a node below its new parent as on values, legal or not; a tree is left exactly when the move was legal or refused |
| RamfsNodes.RamFileSystem.CopyTop | kernel/src/filesystem/ramfs/ramfs.c:222-259 | in place, chooses the name, creates the node and copies the bytes of a file |
| RamfsNodes.RamFileSystem.CopyNode | kernel/src/filesystem/ramfs/ramfs.c:222-270 | terminates and adds a disjoint subtree paired node by node with the source: same shape, order, kinds, sizes, bytes and names but the top one; every old node keeps its children, but for one new last child of the destination; NULL and no change when both names are taken |
| RamfsNodes.RamFileSystem.DeleteNode | kernel/src/filesystem/ramfs/ramfs.c:272-279 | terminates by the size of the subtree and leaves exactly what the deletion on values leaves |
| ContextSwitch.PushesContext | kernel/src/scheduler/context.asm:27-45 | the pushes leave the fifteen registers in the layout of context_t below the stack pointer and write nothing else |
| ContextSwitch.PopsContext | kernel/src/scheduler/context.asm:7-25 | the pops take up all fifteen registers from that layout |
| ContextSwitch.ContextWords | kernel/src/scheduler/context.h:5-23 | word by word, in the order rax, rbx, rcx, rdx, rsi, rdi, rbp, r8 to r15, what the pushes leave and what the pops take up |
| ContextSwitch.Switches | kernel/src/scheduler/context.asm:47-58 | the whole routine saves one context, stores the stack pointer where rdi says, takes up the context that rsi points to and returns through it |
| ContextSwitch.Processor.Step | kernel/src/scheduler/context.asm:7-58 | each instruction as an update of the processor's fields |
| ContextSwitch.Processor.Run | kernel/src/scheduler/context.asm:47-58 | a sequence of instructions executed in place |
| TaskStacks.CreateSaves | kernel/src/scheduler/task.c:39-57 | the first frame of a new task reads as a saved context with the entry in rdi and its argument in rsi, and only the new stack and the saved pointer are written |
| TaskStacks.FrameWords | kernel/src/scheduler/task.c:39-57 | the trampoline is the last word of the stack below its end rounded down to 16, the context lies below it with the argument and the entry in its fifth and sixth words and zero in the others |
| TaskStacks.BootKeeps | kernel/src/scheduler/task.c:85-109 | the boot task alone on its stack satisfies the invariant |
| TaskStacks.StepKeeps | kernel/src/scheduler/context.asm:47-58 | work, switches and creations keep the context of every task that does not run intact |
| TaskStacks.SwitchResumes | kernel/src/scheduler/context.asm:47-58 | the task switched to has its saved registers, stack pointer and place in the code |
| TaskStacks.ResumesAsLeft | kernel/src/scheduler/context.asm:47-58 | over any run between, a task resumes with the fifteen registers, stack pointer and return address it left with |
| TaskStacks.FreshTaskEnters | kernel/src/scheduler/task.c:26-75 | over any run between, a new task first enters the trampoline with rdi and rsi set, all other registers zero and rsp at the end of its stack, rounded down to a multiple of 16, where a function called in C would find it 8 above one |
| Terminal.FloorsAreFloors | kernel/src/video/terminal.c:41-56 | built from division that truncates, the two functions are floor division and its remainder for every sign |
| Terminal.MovesAdd | kernel/src/video/terminal.c:58-69 | moving twice is moving by the sums, across all edges |
| Terminal.MovesUndo | kernel/src/video/terminal.c:58-69 | on the screen, opposite moves undo each other |
| Terminal.MoveIs | kernel/src/video/terminal.c:58-69 | a move ends in range, also from outside |
| Terminal.SetPositionKeepsIff | kernel/src/video/terminal.c:71-76 | setting the position keeps the cursor in range except one past an edge |
| Terminal.SetPositionCanLeave | kernel/src/video/terminal.c:71-76 | one past the right edge of any screen is accepted |
| Terminal.SetPositionIs | kernel/src/video/terminal.c:71-76 | a position up to one past the edges is taken up as given, any other leaves the cursor alone |
| Terminal.PutCharInRange | kernel/src/video/terminal.c:79-98 | writing any character keeps the cursor in range |
| Terminal.LineEnds | kernel/src/video/terminal.c:79-87 | a newline leads to column 0 one text row down, from the last row to the top; a carriage return to column 0 of the same row |
| Terminal.PrintableSteps | kernel/src/video/terminal.c:92-97 | a printable character leads to the next column, past the end of the row into the next one |
| Terminal.WritePrintable | kernel/src/video/terminal.c:79-102 | writing n printable characters is moving by n columns |
| Terminal.WritesAppend | kernel/src/video/terminal.c:100-102 | writing one text after another is writing both as one |
| Terminal.BackspaceUndoes | kernel/src/video/terminal.c:92-97 | a backspace takes the cursor back over a printable character, also over an edge |
| Terminal.TabStops | kernel/src/video/terminal.c:88-91 | a tab within its row ends in a column divisible by four, one to four columns on |
| Terminal.TabStopIs | kernel/src/video/terminal.c:88-91 | the next column divisible by four, one to four columns on |
| Terminal.Terminal.MoveCursor | kernel/src/video/terminal.c:58-69 | in place, the move on values, ending in range |
| Terminal.Terminal.SetCursor | kernel/src/video/terminal.c:71-76 | in place, the set on values |
| Terminal.Terminal.Put | kernel/src/video/terminal.c:79-98 | in place, the cursor effect of a character |
| Terminal.Terminal.WriteText | kernel/src/video/terminal.c:100-102 | the loop over the text has the effect on values |

## Left out

- PageTables.Mapper.MapRange: sizes within one page of 2^64, for which the offset wraps around and the loop does not end.
- Heap.KernelHeap.Kmalloc: the end of the heap itself does not wrap; it would have to cover the whole upper address space.
- PageTables.Boot: memory maps for which the bitmap does not fit; what happens to the tables then is not followed further than `VmmBoot.BitmapCanClearRoot`. After boot the bitmap's frames are not part of the modelled memory words, only of the bitmap's bytes.
- Kernel.Kernel.TaskJoin: joining a task that was created but never added to the scheduler.
- Kernel.Kernel.MutexUnlock: callers that neither hold the mutex nor find it free, for whom `Sched.ReleaseKeepsIff` says that mutual exclusion is lost.
- Kernel.Kernel.SchedulerAdd: the branch for an empty list, which cannot be reached after `scheduler_init`, and adding a record twice.
- Kernel.Kernel.SchedulerRemove: lists of fewer than two tasks, which do not occur while the idle task lives.
- RamfsNodes.RamFileSystem.CopyTop: destinations inside the source, as for the whole copy.
- RamfsNodes.RamFileSystem.CopyNode: destinations inside the source, where the code does not terminate.
- The queue is modelled on values, line by line, since its lines interleave; its one record is a field of that value.
- Tasks, mutexes, semaphores, events and file nodes are records in maps from addresses to fields, held by the classes, so that several links can share a record as in the code.
- Process ids, the cr3 and entry fields of tasks, `task_destroy` and `queue_destroy`: they only call `kfree`, which does nothing, or store values nobody reads.
- NULL arguments of the file system's remove, rename, move, copy, delete, read and write, and a NULL queue: each returns at once.
- Heap exhaustion inside the file system, `task_create` and `queue_init`.
- Fairness among waiters: the chains are last in, first out, so there is none.
- Preemption inside a primitive or inside the scheduler.
- `invlpg`, the translation buffer, reading CR3 and `hlt`: instructions without a counterpart here.
- `krealloc` and `kcalloc`: the first does not copy, the second multiplies without a check.
- `kernel/src/storage`, NVMe, PCI, PIC, PIT, PS/2, the interrupt tables, graphics, fonts and all printing: device access, or functions that only print.
- Names are sequences of characters and file data sequences of bytes, without the terminating zero and without the copies that `strdup` makes.
