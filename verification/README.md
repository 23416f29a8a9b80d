# chodOS, verified model

A Dafny model of the hard cores of the chodOS kernel and proofs about it. Physical memory is a map from frame numbers to
pages of 512 words, reached through the direct map as the identity; time, cycle counters, random draws, devices and the
order in which independent parties act are arbitrary inputs, so the theorems hold for all of them.

Throughout, code that changes things step by step is a class whose methods and loops are proved equal to a function of the
old state, and what the system promises is proved about these functions, over single steps and over whole runs.

| files | subject |
|---|---|
| `Prelude`, `Priorities` | options, bits and bytes of words; process priorities |
| `Frame` | the bitmap frame allocator and its histories |
| `PageTable`, `Paging`, `Machine` | four-level page tables in memory, the tree they spell out, and their equivalence with a flat page map |
| `Fork`, `UserMemory`, `Spaces` | cloning an address space; isolation under interleaved user stores; all spaces together as independent page maps |
| `Vma`, `DemandPaging`, `Access` | the area table; demand paging against eager mapping; what loads and stores each operation allows |
| `Loader`, `Dependencies`, `Relocation` | the dynamic linker: segments, depth-first loading, symbols and relocations |
| `Scheduler`, `SchedulerRuns`, `SchedulerClock`, `SchedulerWaiting`, `SchedulerShares`, `SchedulerEdges`, `SchedulerCode` | both scheduling policies: safety over runs, waiting clocks, choice and cost of turns, bounded waiting, grants, and where the promises end |
| `Switchless` | the single-slot doorbell protocol, interleaved byte by byte |
| `PolicyLearning`, `PolicyLessons`, `PolicyChannels`, `PolicyEngine`, `PolicyRuns`, `PolicyWindows`, `PolicyTuning`, `PolicyEffects`, `PolicyCode` | the policy engine: learning and where it leads, cooldowns, channel opening, ladders and what they follow |
| `Overlay`, `Relinking`, `CopyUp`, `Creating`, `VfsCode`, `Paths` | the writable tree over the read-only image: what its operations change, copy-up, creation, and path strings |
| `Virtio` | the receive ring shared with a device |
| `Dirent` | directory records, written by the kernel and read by the shell |

Where the code and a natural promise part ways, the exact condition is proved: the boot frame counter is right if and only
if usable entries do not overlap (`Frame.CountedIffDisjoint`); killing sticks if and only if the victim is not running
(`SchedulerEdges.KillSticksIff`); a sleep is honoured if and only if somebody else is ready
(`SchedulerEdges.SleepHonouredIff`); loading dependencies can diverge if and only if files need each other in a circle by
path (`Dependencies.DivergesIffTrap`); switchless channels stay in order if and only if no two live ones share a doorbell slot
(`Switchless.InOrderIffDistinct`, with `Switchless.SharingReachable`); ring slots stay in step across counter wrap if and only if the queue size divides 2^16
(`Virtio.StepsInOrderIff`); running cooldowns stay on record if and only if at most eight are running
(`PolicyChannels.RecordRemembersIff`, over runs `PolicyRuns.ReportsIffCalm`); every switchless message arrives if and only if
none is empty (`Switchless.AllArriveIff`, with `Switchless.EmptyMessageLost`); a directory listing is read back if and only
if no record is longer than its 16-bit length can say (`Dirent.RoundTrip`); registering a memory area costs another its slot if and only if it needs one and
none is free (`Vma.InsertKeepsIff`); a renamed node arrives if and only if its new parent is a directory outside it
(`Relinking.RenameArrivesIff`).

History variables that the program does not have are part of some states: `sent` and `received` of a channel, `delivered`
and `received` of the ring, `hotWindows`, `evictedAt`, `changedAt`, `given` and `windows` in the policy engine. No transition reads
them.

Two comments of the source disagree with its code and the code is followed. The comment on the decision trees
(kernel/src/policy/mod.rs:1422) gives the score a range from about -200; the code reaches -120 at least. The comment on
priorities (kernel/src/policy/mod.rs:693-697) makes idle processes Normal; the code keeps their smoothed share and classifies by it.

## Model

| member | source | states |
|---|---|---|
| `Frame.FrameAllocator.Init` | kernel/src/memory/frame.rs:81-116 | after boot the free set is exactly the union of the usable entries below the limit; the counter is the sum of their sizes |
| `Frame.FrameAllocator.AllocFrame` | kernel/src/memory/frame.rs:119-144 | the word scan hands out the least free frame, and None exactly when nothing is free; the counter stays right |
| `Frame.FrameAllocator.FindRun` | kernel/src/memory/frame.rs:150-184 | the run scan finds the least start of a free run, and fails only if there is none |
| `Frame.FrameAllocator.AllocContiguous` | kernel/src/memory/frame.rs:150-184 | None exactly when the count is 0 or no free run exists; otherwise the least run is taken and nothing else |
| `Frame.FrameAllocator.FreeFrame` | kernel/src/memory/frame.rs:187-199 | releasing adds the one frame; out-of-range addresses change nothing; the counter stays right |
| `Frame.FrameAllocator.IsFree` | kernel/src/memory/frame.rs:66-68 | reads the bit of one frame |
| `Frame.FrameAllocator.SetFree` | kernel/src/memory/frame.rs:54-58 | sets one bit and no other |
| `Frame.FrameAllocator.SetUsed` | kernel/src/memory/frame.rs:60-64 | clears one bit and no other |
| `Frame.CountedIffDisjoint` | kernel/src/memory/frame.rs:81-116 | the boot counter equals the number of free frames if and only if no two usable entries overlap |
| `Frame.UsableMeans` | kernel/src/memory/frame.rs:81-100 | a frame is free after boot exactly if it ends inside a usable entry, does not lie wholly before it, and is among the first 2^21 |
| `Frame.HistoryMeans` | kernel/src/memory/frame.rs:119-199 | the steps of a history are what the methods do: the least free frame, the least run, the one frame given back |
| `Frame.NoDoubleHandout` | kernel/src/memory/frame.rs:119-199 | in any history a frame handed out twice was released in between |
| `Frame.StaysUsed` | kernel/src/memory/frame.rs:119-199 | a used frame stays used until it is released |
| `PageTable.WalkIsTree` | kernel/src/paging/mod.rs:680-703 | the four-level walk, huge-page branches included, is the entry of the tree plus the page offset |
| `PageTable.LargePages` | kernel/src/paging/mod.rs:680-703 | a present second- or third-level entry with bit 7 set maps 1 GB or 2 MB as one piece |
| `PageTable.EntAfterWrite` | kernel/src/paging/mod.rs:116-146 | one entry written in place changes what the walk finds at that position only, in every space |
| `PageTable.ChangeKeepsInv` | kernel/src/paging/mod.rs:116-146 | frames of tables and data stay pairwise distinct and used after such a write |
| `Paging.GetOrCreateCorrect` | kernel/src/paging/mod.rs:137-150 | an absent entry gets a fresh zeroed table, a present one is followed; no mapping changes |
| `Paging.Map4kCorrect` | kernel/src/paging/mod.rs:116-133 | mapping sets exactly the entry of the page, with all tables made on the way |
| `Paging.MapNewCorrect` | kernel/src/paging/mod.rs:668-677 | a fresh frame is mapped with its contents and flags; all other pages keep entry and contents |
| `Paging.UnmapCorrect` | kernel/src/paging/mod.rs:762-786 | unmapping clears the entry of the page and gives its frame back |
| `Paging.ProtectCorrect` | kernel/src/paging/mod.rs:811-844 | a protection change keeps the frame and the other pages and keeps all spaces healthy; what the new rights are is said by Access.ProtectAccess |
| `Paging.StepCorrect` | kernel/src/paging/mod.rs:116-146 | every page operation changes exactly the page it names and keeps all spaces healthy |
| `Paging.RunIsFlat` | kernel/src/paging/mod.rs:116-146 | every run of map, unmap and protect steps acts on the tree as on a flat map from page to frame and flags; other spaces see nothing |
| `Paging.RoundsIsRun` | kernel/src/paging/mod.rs:762-786 | the loops over pages are runs of their single steps |
| `Paging.FlatFramesDistinct` | kernel/src/paging/mod.rs:116-146 | mapped frames are pairwise distinct over all spaces and none is free |
| `Machine.Kernel.GetOrCreateTable` | kernel/src/paging/mod.rs:137-150 | the in-place code computes the specified step, out-of-memory included |
| `Machine.Kernel.MapPage` | kernel/src/paging/mod.rs:116-133 | the in-place code computes the specified step |
| `Machine.Kernel.MmapAnon` | kernel/src/paging/mod.rs:668-677 | the loop computes the specified rounds |
| `Machine.Kernel.UnmapPage` | kernel/src/paging/mod.rs:762-786 | the in-place code computes the specified step |
| `Machine.Kernel.MunmapPages` | kernel/src/paging/mod.rs:762-786 | the loop computes the specified rounds |
| `Machine.Kernel.ProtectPage` | kernel/src/paging/mod.rs:811-844 | the in-place code is the step whose effect on loads and stores is Access.ProtectAccess |
| `Machine.Kernel.SetPageProt` | kernel/src/paging/mod.rs:811-844 | the loop is the rounds whose effect on loads and stores is Access.ProtectRange |
| `Machine.Kernel.CloneSpace` | kernel/src/paging/mod.rs:504-563 | the nested loops over four levels compute the specified clone |
| `Machine.Kernel.CloneLevel` | kernel/src/paging/mod.rs:519-560 | one loop level of the clone computes the specified subtree |
| `Machine.Kernel.TryDemandPage` | kernel/src/process/vma.rs:160-173 | the fault service computes the specified step |
| `Machine.Kernel.LoadImage` | kernel/src/dynlink.rs:344-398 | the loops over segments and pages compute the specified load |
| `Machine.Kernel.AllocFrameWith` | kernel/src/paging/mod.rs:90-99 | a new frame is the least free one and is overwritten before use |
| `Fork.CloneTableCorrect` | kernel/src/paging/mod.rs:519-560 | cloning a table copies exactly the mappings below it into fresh frames |
| `Fork.ForkCorrect` | kernel/src/paging/mod.rs:504-563 | the child maps exactly the pages of the parent, with equal flags and bytes in different frames; parent and all other spaces are unchanged |
| `UserMemory.LoadAfterStore` | kernel/src/paging/mod.rs:680-703 | a user store changes the one byte it names in the one space that made it |
| `UserMemory.NonInterference` | kernel/src/paging/mod.rs:504-563 | under any interleaving a space sees the effect of its own stores only |
| `UserMemory.ForkSameBytes` | kernel/src/paging/mod.rs:504-563 | right after a fork parent and child read what the parent read before |
| `UserMemory.ForkIsolation` | kernel/src/paging/mod.rs:504-563 | after a fork any interleaved stores of all spaces leave child and parent each with the common memory overwritten by its own stores |
| `Access.PathGrantsAll` | kernel/src/paging/mod.rs:116-150 | the three upper levels never withhold a right, so the leaf decides |
| `Access.ProtectAccess` | kernel/src/paging/mod.rs:811-844 | after mprotect of a mapped page a user load reads the byte it had, unless prot is 0 (then the page is absent); a user store succeeds exactly if prot has bit 1, and is denied for other non-zero prot |
| `Access.ProtectRange` | kernel/src/paging/mod.rs:811-844 | after mprotect of a range the same holds of every mapped page inside it, and every mapped page outside keeps entry and contents |
| `Access.UnmapAccess` | kernel/src/paging/mod.rs:762-786 | after munmap loads and stores find the page absent |
| `Access.MapAccess` | kernel/src/paging/mod.rs:116-133 | after mapping, loads read the contents if the user bit is given, and stores succeed exactly if the writable bit is too |
| `Access.AnonAccess` | kernel/src/paging/mod.rs:668-677 | a new anonymous page reads as zeros and takes stores exactly if it is writable |
| `Access.OthersAccess` | kernel/src/paging/mod.rs:762-844 | no operation on one page changes the outcome of a load or store on another page or in another space |
| `Access.ServiceAccess` | kernel/src/process/vma.rs:160-173 | a serviced fault leaves a page of zeros that takes stores exactly if the area is writable; without a lazy area nothing happens |
| `Access.RefusedKills` | kernel/src/interrupts/handlers.rs:76-99 | an access that is refused, or that no lazy area serves, kills the program and changes no memory |
| `Access.ReadOnlyArea` | kernel/src/process/vma.rs:160-173 | in a read-only lazy area a first load reads zero and a store kills the program |
| `Access.ForkSharesKernel` | kernel/src/paging/mod.rs:504-513 | the upper half of the root of a forked space is that of the kernel, entry by entry |
| `Spaces.PageOpWorld` | kernel/src/paging/mod.rs:762-844 | a page operation of one space changes one cell of its page map and no other space |
| `Spaces.ForkWorld` | kernel/src/paging/mod.rs:504-563 | a fork copies the page map |
| `Spaces.DoIsWorldStep` | kernel/src/paging/mod.rs:504-563 | every step of any space is the same step on independent page maps |
| `Spaces.RunIsWorldRun` | kernel/src/paging/mod.rs:116-146 | any interleaving of mappings, faults, stores and forks of all spaces over one frame pool acts as one independent map from pages to flags and contents per space |
| `Vma.VmaTable.FindArea` | kernel/src/process/vma.rs:124-132 | the scan returns the first valid area covering the address |
| `Vma.VmaTable.InsertArea` | kernel/src/process/vma.rs:69-103 | the in-place insert computes the specified table, same-base overwrite and tail split included |
| `Vma.VmaTable.InsertInSlot` | kernel/src/process/vma.rs:51-60 | the first invalid slot is filled; in a full table the smallest area is replaced |
| `Vma.InsertFinds` | kernel/src/process/vma.rs:51-103 | in any table of disjoint areas: the new area's addresses get its rights and all others keep theirs, except that when a slot is needed and none is free exactly the addresses of the first smallest area lose theirs |
| `Vma.InsertKeepsIff` | kernel/src/process/vma.rs:51-103 | all addresses get what they should if and only if a slot is free or a same-base area no longer than the new one is overwritten |
| `DemandPaging.LazyStep` | kernel/src/process/vma.rs:160-173 | an access to a lazy region, fault service included, behaves like one on plain zero-filled memory |
| `DemandPaging.LazyIsRef` | kernel/src/process/vma.rs:124-173 | every run over a lazy region observes what plain zero-filled memory shows |
| `DemandPaging.EagerIsRef` | kernel/src/paging/mod.rs:668-677 | so does every run over a region mapped in advance |
| `DemandPaging.LazyRefinesEager` | kernel/src/interrupts/handlers.rs:80-89 | a program cannot tell demand paging from eager mapping, whatever it loads and stores |
| `DemandPaging.InsertMakesLazyRegion` | kernel/src/process/vma.rs:69-103 | registering a lazy area makes its pages serviceable, unless that very area has to give up its slot at once |
| `Loader.LoadSegmentsShow` | kernel/src/dynlink.rs:356-398 | segments on disjoint pages all stay readable as loaded |
| `Loader.CopyIsImage` | kernel/src/dynlink.rs:369-387 | the page-wise copy gives file bytes up to filesz and zeros up to the page end, for any alignment |
| `Loader.LoaderCorrect` | kernel/src/dynlink.rs:344-398 | after loading, every address of every segment reads through the page tables as the image prescribes |
| `Loader.ImageLoaded` | kernel/src/dynlink.rs:344-398 | each of the memsz bytes of each segment reads as file byte or zero, and takes stores exactly if the segment is writable |
| `Loader.LoadedElsewhere` | kernel/src/dynlink.rs:344-398 | pages no segment reaches, and all other spaces, are accessible as before |
| `Loader.FilePartOnPages` | kernel/src/dynlink.rs:357-360 | with filesz at most memsz the file-backed part lies on the mapped pages |
| `Dependencies.LoadDepsCorrect` | kernel/src/dynlink.rs:254-285 | a call that returns loaded no name twice, settled every needed name of every library it loaded, and used disjoint slots |
| `Dependencies.LoadDepsReturns` | kernel/src/dynlink.rs:254-285 | with slash-free names nesting is bounded by the names not yet loaded, so any cyclic graph terminates |
| `Dependencies.DeeperDeps` | kernel/src/dynlink.rs:254-285 | the nesting bound decides only whether the call returns, not what it returns |
| `Dependencies.LoadCorrect` | kernel/src/dynlink.rs:254-285 | existence, uniqueness and correctness of the result, from any linker state |
| `Dependencies.OnlyWanted` | kernel/src/dynlink.rs:254-285 | nothing is loaded that the list or a library loaded before did not ask for |
| `Dependencies.DivergesIffTrap` | kernel/src/dynlink.rs:258-280 | with directory parts in names some load never returns if and only if loadable files need each other in a circle by path |
| `Dependencies.TrapDiverges` | kernel/src/dynlink.rs:258-280 | such a circle makes a concrete load diverge at every depth |
| `Dependencies.OneSlotEach` | kernel/src/dynlink.rs:268-269 | when no file is refused, slots are used one per library |
| `Dependencies.RefusedKeepsSlot` | kernel/src/dynlink.rs:263-273 | a refused file is not loaded but its slot is used up; a name the provider lacks uses none |
| `Dependencies.BaseNameIsSuffix` | kernel/src/dynlink.rs:262 | the name asked for is what follows the last slash, or the whole name |
| `Dependencies.SlotBelowInterpreterIff` | kernel/src/dynlink.rs:38-48 | a slot ends below the interpreter base exactly for the first 64 |
| `Dependencies.SixtyFourFit` | kernel/src/dynlink.rs:38-48 | at most 64 loadable files stay below the interpreter |
| `Dependencies.DynLinker.LoadNeeded` | kernel/src/dynlink.rs:254-285 | for any names and any limit on nesting the recursive loop computes the specified load, or reports that the limit does not suffice |
| `Dependencies.DynLinker.IsLoaded` | kernel/src/dynlink.rs:260 | the scan finds a library by name |
| `Relocation.FirstWins` | kernel/src/dynlink.rs:78-113 | the map that drops later definitions answers like the list of everything offered |
| `Relocation.FirstDefiner` | kernel/src/dynlink.rs:89-113 | a name gets the address of its first definition, libraries in load order |
| `Relocation.Undefined` | kernel/src/dynlink.rs:89-113 | a name nobody defines is not found |
| `Relocation.ResolveMeaning` | kernel/src/dynlink.rs:603-623 | a symbol is the library's own definition, else the first definer in load order, else 0 |
| `Relocation.PokeAllPatches` | kernel/src/dynlink.rs:525-591 | every byte of every space ends with the last one aimed at it, all else unchanged; failures count the unmapped targets |
| `Relocation.ResolveAllCorrect` | kernel/src/dynlink.rs:293-311 | the eight bytes at every mapped target spell the value of its relocation in the end, whatever its alignment; the value itself is spelled out by Relocation.ResolveAllSpells |
| `Relocation.ResolveAllSpells` | kernel/src/dynlink.rs:525-566 | the eight bytes at base + offset spell base + addend, S + addend, S or S (mod 2^64) by the kind of the relocation, S being the meaning of its symbol |
| `Relocation.ResolveAllElsewhere` | kernel/src/dynlink.rs:522-591 | a byte no supported relocation aims at, and every byte of another space, is as before |
| `Relocation.NoFailureIff` | kernel/src/dynlink.rs:293-311 | no failure is reported if and only if every target is mapped |
| `UserMemory.BytesSpellWord` | kernel/src/dynlink.rs:541-566 | the eight bytes of a stored word, least significant first, spell it |
| `Relocation.RelocationOrder` | kernel/src/dynlink.rs:293-311 | the result does not depend on the order of relocations |
| `Relocation.RelocationIdempotent` | kernel/src/dynlink.rs:293-311 | resolving again changes nothing |
| `Relocation.Resolver.Find` | kernel/src/dynlink.rs:89-93 | the scan returns the first entry of a name |
| `Relocation.Resolver.AddLib` | kernel/src/dynlink.rs:96-112 | the loop defines all exported symbols, first definition winning |
| `Relocation.Resolver.ApplyOne` | kernel/src/dynlink.rs:525-566 | walk, value and store of one relocation are those of ResolveAllSpells and ResolveAllElsewhere |
| `Relocation.Resolver.ApplySection` | kernel/src/dynlink.rs:522-591 | the loop computes the specified patches and failure count |
| `Relocation.Resolver.ResolveAll` | kernel/src/dynlink.rs:293-311 | both loops together leave the specified memory, map and failure count |
| `Scheduler.ScanIsBest` | kernel/src/process/scheduler.rs:446-475 | no ready process has a better key than the one the candidate scan selects |
| `Scheduler.ScanIsFirst` | kernel/src/process/scheduler.rs:446-475 | with neutral affinities it is the first such process in cyclic order |
| `SchedulerRuns.BootGood` | kernel/src/process/scheduler.rs:582-590 | the boot state satisfies what runs start from |
| `SchedulerRuns.OneRunning` | kernel/src/process/scheduler.rs:350-501 | in every run exactly one process is Running, the current one |
| `SchedulerRuns.DeadForever` | kernel/src/process/scheduler.rs:224-232 | a killed process is never selected again |
| `SchedulerRuns.SleepBlocks` | kernel/src/process/scheduler.rs:316-320 | a sleep request that switches away leaves the process asleep until its deadline |
| `SchedulerRuns.SleepsUntilDeadline` | kernel/src/process/scheduler.rs:385-401 | a descheduled sleeper is never selected before its deadline, whatever else happens |
| `SchedulerRuns.WakesAtDeadline` | kernel/src/process/scheduler.rs:414-428 | the first interrupt at or after the deadline makes it ready |
| `SchedulerRuns.ResumesWhereSuspended` | kernel/src/process/scheduler.rs:350-412 | a suspended process keeps its saved stack pointer until it runs again |
| `SchedulerRuns.ResumesWhereInterrupted` | kernel/src/process/scheduler.rs:350-412 | in every run a process is resumed with the very stack pointer it was interrupted with |
| `SchedulerRuns.PreemptOthers` | kernel/src/process/scheduler.rs:350-501 | what an interrupt may do to processes that are not running |
| `SchedulerClock.WaitsSinceItLeft` | kernel/src/process/scheduler.rs:385-428 | in every run a process that left the processor or woke in the interrupt at tick d and has not run since has waited exactly now - d ticks |
| `SchedulerClock.OwnPriority` | kernel/src/process/scheduler.rs:360-401 | leaving the processor spends one boost and restarts the wait: an unboosted process then competes with its own priority |
| `SchedulerClock.GivesWay` | kernel/src/process/scheduler.rs:430-475 | when the grant is used up, a process without boost left does not outlive a ready one of higher priority |
| `SchedulerClock.InterruptKeeps` | kernel/src/process/scheduler.rs:350-412 | an interrupt changes no identity, priority or affinity and spends one boost of the outgoing process |
| `SchedulerClock.CyclicIsMod` | kernel/src/process/scheduler.rs:453-454 | scan offsets are taken modulo the number of processes |
| `SchedulerClock.ScanWins` | kernel/src/process/scheduler.rs:446-475 | the scan selects the candidate with the best key; among equals one of this core; among equals of those the first in cyclic order |
| `SchedulerClock.ChoosesPreferred` | kernel/src/process/scheduler.rs:446-556 | whom an interrupt chooses under either policy: the first boosted candidate under CFS if there is one, else the winner of the scan; its run starts now and nobody else changes |
| `SchedulerClock.TurnCost` | kernel/src/process/scheduler.rs:370-379 | under CFS exactly the outgoing process pays, its cycles times 1024 over 88761, 1024, 335 or 15 by its priority, rounded down |
| `SchedulerClock.ProportionalTurns` | kernel/src/process/scheduler.rs:142-154 | turns in proportion to these weights cost the same |
| `SchedulerClock.LevelStart` | kernel/src/process/scheduler.rs:125-131 | switching to CFS starts all processes level |
| `SchedulerWaiting.WeightedBoundedWaiting` | kernel/src/process/scheduler.rs:414-501 | a ready process that has waited 200 ticks runs within 4(n-1) interrupts, whatever the others do |
| `SchedulerWaiting.CfsBoundedWaiting` | kernel/src/process/scheduler.rs:510-556 | under CFS a ready process runs within one more interrupt than the sum of the others' vruntime leads |
| `SchedulerShares.AgingSchedule` | kernel/src/process/scheduler.rs:44-91 | a boosted process is High; else the waiting times at which each priority is promoted |
| `SchedulerShares.AgingMonotone` | kernel/src/process/scheduler.rs:75-91 | waiting longer never lowers a priority |
| `SchedulerShares.KeepsGrant` | kernel/src/process/scheduler.rs:430-440 | a process keeps the processor for all forced ticks it was granted |
| `SchedulerShares.TurnLasts` | kernel/src/process/scheduler.rs:430-500 | a whole turn: the chosen process keeps the processor for all but the last of 4, 2 or 1 granted forced ticks, and that one chooses again |
| `SchedulerEdges.KillSticksIff` | kernel/src/process/scheduler.rs:224-232 | a killed process stays dead after the next interrupt if and only if it was not the running one; a kill changes no other process |
| `SchedulerEdges.SleepHonouredIff` | kernel/src/process/scheduler.rs:385-401 | a sleep request is honoured if and only if another process is ready |
| `Scheduler.MinReadyIsLeast` | kernel/src/process/scheduler.rs:207-213 | the minimum is the least vruntime of a ready process, None exactly when there is none |
| `Scheduler.NewcomerStart` | kernel/src/process/scheduler.rs:198-216 | under CFS a newcomer starts level with the ready process that ran least, never below it, and the others are untouched |
| `SchedulerCode.SchedulerObject.AllocPid` | kernel/src/process/scheduler.rs:188-192 | the pid handed out belongs to no process |
| `SchedulerCode.SchedulerObject.SpawnProcess` | kernel/src/process/scheduler.rs:198-216 | the method appends the process, with the start of NewcomerStart under CFS |
| `SchedulerCode.SchedulerObject.KillPid` | kernel/src/process/scheduler.rs:224-246 | the method marks the first process with the pid |
| `SchedulerCode.SchedulerObject.WakeSleepers` | kernel/src/process/scheduler.rs:414-428 | the loop wakes exactly the due sleepers |
| `SchedulerCode.SchedulerObject.FindNext` | kernel/src/process/scheduler.rs:446-556 | the scan loops of both policies select the specified process |
| `SchedulerCode.SchedulerObject.SwitchToNext` | kernel/src/process/scheduler.rs:414-501 | the method carries out the specified choice and returns the chosen stack pointer |
| `SchedulerCode.SchedulerObject.SleepTicks` | kernel/src/process/scheduler.rs:683-687 | zero ticks do nothing; else request and yield together carry out the specified sleep |
| `SchedulerCode.SchedulerObject.DoPreempt` | kernel/src/process/scheduler.rs:350-412 | the method carries out the transition whose clocks, choice and costs are the subject of SchedulerClock |
| `Switchless.ActKeepsOk` | kernel/src/process/ipc_cap.rs:315-361 | every byte-level step of any channel keeps the protocol invariant of all channels, as long as live channels do not come to share a slot |
| `Switchless.ReceivedIsPrefix` | kernel/src/process/ipc_cap.rs:315-361 | in every interleaving in which live channels never share a slot, the received sequence is a prefix of the sent one, at most one message in flight |
| `Switchless.SendsWhatItWasGiven` | kernel/src/process/ipc_cap.rs:315-335 | in every run a send ends by recording the data it was started with, after all earlier messages, whole up to 4096 bytes, and by ringing the bell with its length |
| `Switchless.VisibleAllIff` | kernel/src/process/ipc.rs:79-95 | all sent messages are visible to the receiver if and only if none is empty |
| `Switchless.NoTornRead` | kernel/src/process/ipc_cap.rs:343-361 | a poll in progress holds a prefix of the very message being delivered |
| `Switchless.AllArriveIff` | kernel/src/process/ipc_cap.rs:315-361 | in every such interleaving, once the bell is clear every sent message has arrived if and only if none was empty |
| `Switchless.EmptyMessageLost` | kernel/src/process/ipc_cap.rs:323-335 | a run that loses an empty message |
| `Switchless.InOrderIffDistinct` | kernel/src/process/ipc_cap.rs:315-361 | from a quiet state, every continuation keeps each channel's received messages a prefix of its sent ones if and only if no two live channels share a doorbell slot |
| `Switchless.Misdelivered` | kernel/src/process/ipc_cap.rs:67 | on a shared slot a byte sent on one channel is received on the other |
| `Switchless.SharingReachable` | kernel/src/process/ipc_cap.rs:107-135 | a run from boot to such a state: ids are handed out without a look at slots, and ids 1 and 65 share one |
| `PolicyLearning.TargetInRange` | kernel/src/policy/mod.rs:1506 | targets stay in [-20000, 12000], and both ends are fixed points |
| `PolicyLearning.UpdateKeepsQ` | kernel/src/policy/mod.rs:1496-1509 | an update keeps every Q-value in range and every cell but the one it names |
| `PolicyLessons.UpdateMoves` | kernel/src/policy/mod.rs:1496-1509 | the one cell moves by a tenth, rounded toward zero, of its distance to 100 times the reward plus nine tenths, rounded toward zero, of the best next value |
| `PolicyLessons.LessonsConverge` | kernel/src/policy/mod.rs:1496-1509 | repeated updates toward a steady target come within 9 of it, at least one closer each time, and change no other cell |
| `PolicyLessons.FirstLesson` | kernel/src/policy/mod.rs:1496-1509 | at first every state prefers to do nothing, and one good window takes that value from 10 to 19 |
| `PolicyLessons.SelectMeaning` | kernel/src/policy/mod.rs:1513-1541 | below the exploration percentage the second draw decides, else the first best action is taken |
| `PolicyLessons.Rewards` | kernel/src/policy/mod.rs:1545-1572 | what each action earns in a burst, in growth with and without a channel, and otherwise |
| `PolicyLessons.LearnsWhatPays` | kernel/src/policy/mod.rs:1545-1572 | once values are within 9 of what rewards prescribe, the greedy action is to discourage exactly in bursts, and never to do nothing |
| `PolicyLessons.WindowsCount` | kernel/src/policy/mod.rs:1237-1252 | the counters after any number of equal windows |
| `PolicyLessons.TreesAsk` | kernel/src/policy/mod.rs:1423-1477 | for pairs with evidence enough, the exact conditions on counters, rate and cold windows for scores of 220, 300 and 380 |
| `PolicyLearning.ScoreIff` | kernel/src/policy/mod.rs:1037 | the score reaches t exactly when alpha is t parts in a thousand of alpha + beta + 1 |
| `PolicyLearning.GreedyIsFirstBest` | kernel/src/policy/mod.rs:1534-1539 | greedy selection takes the first action of greatest value |
| `PolicyLearning.StateIdxSeparates` | kernel/src/policy/mod.rs:1483-1491 | two situations share a state exactly when they share all buckets |
| `PolicyLearning.StateIdxMonotone` | kernel/src/policy/mod.rs:1483-1491 | more evidence, rate or cold windows never give a lower state |
| `PolicyLearning.StateIdx` | kernel/src/policy/mod.rs:1483-1491 | the state index is below 36 |
| `PolicyLearning.Reward` | kernel/src/policy/mod.rs:1545-1572 | rewards stay in [-20, 12] |
| `PolicyLearning.ObserveKeepsBayes` | kernel/src/policy/mod.rs:1237-1252 | alpha stays in [1, 500] and below 1 + 5 per window with traffic, beta in [4, 500] |
| `PolicyLearning.HotNeedsTwoWindows` | kernel/src/policy/mod.rs:1037 | a hot score needs two windows with traffic |
| `PolicyLearning.TwoWindowsSuffice` | kernel/src/policy/mod.rs:1037 | two windows of heavy traffic give one, so the bound is exact |
| `PolicyLearning.GbdtRange` | kernel/src/policy/mod.rs:1423-1477 | the score lies in [-120, 580], both reached; 300 needs alpha of 6, or 8 with a cold window |
| `PolicyLearning.GbdtMonotone` | kernel/src/policy/mod.rs:1423-1477 | more traffic evidence never lowers the score |
| `PolicyChannels.CooldownIffRecent` | kernel/src/policy/mod.rs:456-464 | the table reports a cooldown exactly for pairs evicted less than 72 ticks ago, while it remembers all of them |
| `PolicyChannels.ExpireKeepsUnexpired` | kernel/src/policy/mod.rs:490-501 | expiry removes exactly the expired entries |
| `PolicyChannels.ExpireRemembers` | kernel/src/policy/mod.rs:490-501 | expiry forgets no recent eviction |
| `PolicyChannels.RecordRemembersIff` | kernel/src/policy/mod.rs:467-487 | recording keeps every recent eviction reported if and only if at most eight are recent |
| `PolicyChannels.NinthForgets` | kernel/src/policy/mod.rs:479-486 | with more, some pair whose cooldown is running is no longer reported |
| `PolicyEngine.SelectSorts` | kernel/src/policy/mod.rs:1010-1015 | the selection sort permutes the ranks and puts the best three first |
| `PolicyEngine.CloseKeeps` | kernel/src/policy/mod.rs:1212-1396 | closing a window keeps an entry's bounds, counts its traffic, and deactivates it exactly when it is evicted |
| `PolicyEngine.ColdTwice` | kernel/src/policy/mod.rs:1312-1372 | two quiet windows in a row evict a pair; a busy one without a spike clears the count |
| `PolicyRuns.ObserveLands` | kernel/src/policy/mod.rs:567-607 | traffic lands in one entry of its pair, count and saturating payload, all others untouched; only in a full table is a live entry displaced, one with the least count |
| `PolicyEngine.OpenAllAllowed` | kernel/src/policy/mod.rs:1029-1110 | a round of openings makes at most two channels, each allowed |
| `PolicyEngine.OpenAllServes` | kernel/src/policy/mod.rs:1029-1110 | every ranked pair that is hot and not cooling down gets its channel unless both openings went to others |
| `PolicyEngine.HotIff` | kernel/src/policy/mod.rs:1037-1052 | hot means 7 alpha >= 13 (beta + 1) and a tree score of 300, or 220 after encouraging, 380 after discouraging, any after pinning |
| `PolicyEngine.TopIsBest` | kernel/src/policy/mod.rs:992-1015 | every live pair with traffic is among the three ranks considered, or three others are as good or better |
| `PolicyWindows.HotMeans` | kernel/src/policy/mod.rs:1037-1052 | the same in terms of counters, smoothed rate and cold windows alone |
| `PolicyWindows.GrowthCounts` | kernel/src/policy/mod.rs:996-1004 | in the ranking, growth above the smoothed rate counts 50 for a fast pair with little evidence and nothing for others |
| `PolicyWindows.HotPairServed` | kernel/src/policy/mod.rs:1029-1110 | in a window, the hot pair that ranks highest always gets its channel, and the others unless two others do or three rank as high |
| `PolicyWindows.CloseRecords` | kernel/src/policy/mod.rs:1212-1257 | what a window leaves on record: count, growth, an empty payload window, and rates smoothed three tenths new to seven tenths old |
| `PolicyWindows.NextAction` | kernel/src/policy/mod.rs:1259-1264 | a pair that stays goes to the state of its counters, rate and cold windows with an action selected there |
| `PolicyWindows.CloseTeaches` | kernel/src/policy/mod.rs:1288-1390 | the reward of each ending of a window for each action, learnt in the one cell of the last state and action; who stays, and with how many cold windows |
| `PolicyWindows.SpikeIff` | kernel/src/policy/mod.rs:1266-1273 | a spike is growth of 200 or more and twenty times the average, or payload above twenty times the average |
| `PolicyWindows.SteadyIsNoSpike` | kernel/src/policy/mod.rs:1225-1273 | traffic that a window has seen is no spike in the next |
| `PolicyWindows.WindowEvicts` | kernel/src/policy/mod.rs:1212-1396 | a window closes exactly the channels of the pairs it evicts and dates their evictions; every entry is judged by its own traffic |
| `PolicyWindows.ExplorationFalls` | kernel/src/policy/mod.rs:1016-1022 | exploration falls from 20 to 5 percent, by one in windows that end at a multiple of 1000 ticks |
| `PolicyRuns.StepKeepsGood` | kernel/src/policy/mod.rs:698-1408 | every event keeps Q-values, counters, exploration and cold windows in bounds and pairs distinct |
| `PolicyRuns.RunGood` | kernel/src/policy/mod.rs:698-1408 | so does every run, whatever the draws and the traffic |
| `PolicyRuns.RunRemembers` | kernel/src/policy/mod.rs:456-501 | in calm runs every recent eviction is remembered |
| `PolicyRuns.ReportsIffCalm` | kernel/src/policy/mod.rs:456-501 | over a run in tick order every recent eviction is reported at all times if and only if no window leaves more than eight |
| `PolicyRuns.RunTableSize` | kernel/src/policy/mod.rs:467-501 | the table never outgrows its eight slots |
| `PolicyRuns.ChannelOpening` | kernel/src/policy/mod.rs:1029-1110 | in every run a window opens at most two channels, only for hot pairs with two windows of traffic, and in calm runs never within 72 ticks of the eviction of the pair |
| `PolicyTuning.ClimbReaches` | kernel/src/policy/mod.rs:742-750 | a steady target level is reached in as many windows as it is away, without overshoot |
| `PolicyTuning.TuneProcKeeps` | kernel/src/policy/mod.rs:796-849 | vol_ema stays at most 1000, alpha level below 5 and moving one step at most |
| `PolicyTuning.TuneProcsEach` | kernel/src/policy/mod.rs:783-918 | every active slot is tuned once, from its own values |
| `PolicyTuning.PriorityChangesApart` | kernel/src/policy/mod.rs:861-885 | in every run two changes that the classification makes to one process's priority are at least three windows apart |
| `PolicyTuning.ReportKeeps` | kernel/src/policy/mod.rs:717-983 | a report keeps all bounds, moves each ladder one step at most, and rests on the baseline while off |
| `PolicyTuning.RunKeeps` | kernel/src/policy/mod.rs:540-564 | in every run the slice is 1 to 3 ticks and all levels are in range |
| `PolicyTuning.LaddersStep` | kernel/src/policy/mod.rs:540-564 | in every run an event moves a ladder one step at most, and reports are 8 ticks apart or more |
| `PolicyEffects.ShareSmoothed` | kernel/src/policy/mod.rs:796-812 | the share of voluntary switches is smoothed with one to five tenths of the new value, by the level |
| `PolicyEffects.PriorityGiven` | kernel/src/policy/mod.rs:849-885 | a priority is changed exactly if the engine is on, the class differs and no change is recent; and then to High from 600 up, Low down from 200, Normal between |
| `PolicyEffects.LevelFollows` | kernel/src/policy/mod.rs:814-847 | the smoothing level moves one step toward 4, 2 or 0 by the smoothed jumps of the share, and not at all on few samples |
| `PolicyEffects.BehaviourDecides` | kernel/src/policy/mod.rs:796-858 | a process that only yields ends up classed High and one that is only preempted Low, whatever it did before |
| `PolicyEffects.SliceFollowsLoad` | kernel/src/policy/mod.rs:974-983 | the slice is 1, 2 or 3 ticks as some process ran for 70 percent, 40 percent or less of the window, and not 1 in the build profile |
| `PolicyEffects.IntervalFollowsRate` | kernel/src/policy/mod.rs:717-766 | the report interval is 8, 18, 36 or 72 ticks and moves one rung by the smoothed switch rate, and not at all on few switches |
| `PolicyEffects.ProfileFollowsBalance` | kernel/src/policy/mod.rs:924-967 | the profile moves one step by the smoothed balance of processes classed High and Low, and not at all if fewer than two are |
| `PolicyEffects.TurnCounted` | kernel/src/policy/mod.rs:540-557 | between a switch to a process and the switch from it its running time grows by the ticks between, and nobody else's by the second switch |
| `PolicyEffects.RegisterThenLeave` | kernel/src/policy/mod.rs:507-537 | registering takes one slot with fresh counters, a second time nothing, and unregistering gives it up |
| `PolicyEffects.ReportsOnTime` | kernel/src/policy/mod.rs:560-563 | a switch brings a report exactly when the interval has passed |
| `PolicyTuning.TuningObject.TuneAll` | kernel/src/policy/mod.rs:783-918 | the loop tunes all slots and sums shares and classes as specified |
| `PolicyTuning.TuningObject.AdaptInterval` | kernel/src/policy/mod.rs:717-766 | the in-place code computes the specified interval |
| `PolicyTuning.TuningObject.AdaptProfile` | kernel/src/policy/mod.rs:924-967 | the in-place code computes the specified profile |
| `PolicyTuning.TuningObject.AdaptAndReport` | kernel/src/policy/mod.rs:698-983 | the whole report computes the specified state |
| `PolicyCode.PolicyObject.InEvictCooldown` | kernel/src/policy/mod.rs:456-464 | the scan answers as specified |
| `PolicyCode.PolicyObject.RecordEviction` | kernel/src/policy/mod.rs:467-487 | the in-place code computes the specified table |
| `PolicyCode.PolicyObject.ExpireEvictions` | kernel/src/policy/mod.rs:490-501 | the swap-removal loop computes the specified table |
| `PolicyCode.PolicyObject.Observe` | kernel/src/policy/mod.rs:567-607 | the three scans update, fill or replace the specified slot |
| `PolicyCode.PolicyObject.TopRanks` | kernel/src/policy/mod.rs:992-1015 | ranking and sorting give the specified three pairs |
| `PolicyCode.PolicyObject.OpenHot` | kernel/src/policy/mod.rs:1029-1110 | the opening loop carries out the specified openings |
| `PolicyCode.PolicyObject.DecayPairs` | kernel/src/policy/mod.rs:1212-1396 | the closing loop carries out the specified window end |
| `PolicyCode.PolicyObject.AdaptAndReport` | kernel/src/policy/mod.rs:698-1408 | the pair-table part of a report computes the specified state |
| `Overlay.PathUnique` | kernel/src/vfs/mod.rs:129-151 | a directory is found under one path only |
| `Overlay.GrowLookup` | kernel/src/vfs/tmpfs.rs:31-46 | a new entry is seen under its own path and nowhere else |
| `Overlay.MakeWf` | kernel/src/vfs/mod.rs:164-182 | creating keeps the tree: entries lead to nodes, directories have one entry |
| `Relinking.RemoveOutcome` | kernel/src/vfs/mod.rs:233-266 | when a removal is refused, and as what |
| `Relinking.RemoveFinds` | kernel/src/vfs/mod.rs:233-274 | after a removal the path and all below it lead nowhere and every other path leads where it did, contents untouched |
| `Relinking.LinkFinds` | kernel/src/vfs/mod.rs:334-363 | after a link the new path leads to the linked file, replacing what stood there, and every other path is as before |
| `Relinking.RenameFinds` | kernel/src/vfs/mod.rs:277-331 | after a rename, on every path: below the new name stands what stood below the old one, the old one is gone, all else is as before; or the node is lost |
| `Relinking.RenameArrivesIff` | kernel/src/vfs/mod.rs:277-331 | the new name leads to the node if and only if its parent is a directory outside the moved subtree |
| `CopyUp.ViewMeans` | kernel/src/vfs/mod.rs:486-513 | what the merged queries answer on any path: the tree first, then the image; an image directory counts only if it is not empty; listings join both, the tree deciding the kind |
| `CopyUp.CopyUpInvisible` | kernel/src/vfs/mod.rs:451-468 | copy-up changes no answer of any merged query on any path; it returns the node at the path, and fails exactly when the image has no such file or a tree file is in the way |
| `CopyUp.EnsureReaches` | kernel/src/vfs/mod.rs:429-446 | the parents are made exactly when no file stands in the way |
| `CopyUp.GrowInvisible` | kernel/src/vfs/mod.rs:429-468 | one new entry that mirrors the image goes unnoticed |
| `CopyUp.WriteSeen` | kernel/src/vfs/mod.rs:195-202 | a write to a file shows under that file's paths only |
| `CopyUp.CopyHasOnePath` | kernel/src/vfs/mod.rs:451-468 | a file just copied up has one path |
| `CopyUp.WriteAfterCopyUp` | kernel/src/vfs/mod.rs:451-512 | a write to it changes what is read under its path and nothing else |
| `VfsCode.RunKeepsWf` | kernel/src/vfs/mod.rs:164-483 | every run of the operations keeps the tree |
| `VfsCode.OpenInvisible` | kernel/src/vfs/mod.rs:472-483 | opening what exists for writing shows nothing until something is written; it hands out the node of the path with the contents read before, and fails exactly when the image has no file there or a file stands in the way |
| `Creating.MakeFinds` | kernel/src/vfs/mod.rs:164-182 | creating hands out what stands at the path, makes a missing entry of a directory, seen under that path only, and is refused exactly without a parent directory |
| `Creating.EnsureMakes` | kernel/src/vfs/mod.rs:429-446 | with no file in the way the missing parents become directories, each listed by the one above, and everything there stays what it was |
| `Creating.EnsureBlocked` | kernel/src/vfs/mod.rs:429-446 | with a file in the way nothing is made |
| `Creating.OpenCreates` | kernel/src/vfs/mod.rs:477-483 | opening a path that is nowhere: without the flag nothing happens; with it the open fails, changing nothing, if and only if a file stands among the proper prefixes, else the path and no other leads to a new empty file |
| `Creating.CreatedReads` | kernel/src/vfs/mod.rs:472-495 | after such an open the new file reads as empty and every other path reads as before; exactly the path and its parents come into existence |
| `VfsCode.Vfs.Find` | kernel/src/vfs/mod.rs:129-151 | the component loop computes the specified lookup |
| `VfsCode.Vfs.MakeNode` | kernel/src/vfs/mod.rs:164-182 | the method carries out the creation of Creating.MakeFinds |
| `VfsCode.Vfs.EnsureParents` | kernel/src/vfs/mod.rs:429-446 | the prefix loop makes the specified directories |
| `VfsCode.Vfs.CopyUpPath` | kernel/src/vfs/mod.rs:451-468 | the method carries out the specified copy-up |
| `VfsCode.Vfs.OpenForWriting` | kernel/src/vfs/mod.rs:472-483 | the method carries out the open of OpenInvisible and Creating.OpenCreates |
| `VfsCode.Vfs.RemoveEntry` | kernel/src/vfs/mod.rs:233-274 | the method carries out the removal of RemoveOutcome and RemoveFinds |
| `VfsCode.Vfs.RenameEntry` | kernel/src/vfs/mod.rs:277-331 | the method carries out the rename of RenameFinds |
| `VfsCode.Vfs.LinkEntry` | kernel/src/vfs/mod.rs:334-363 | the method carries out the link of LinkFinds |
| `Paths.SplitParentParts` | kernel/src/vfs/mod.rs:153-160 | the split names the last component and the parent string leads to all others |
| `Paths.SplitParentFails` | kernel/src/vfs/mod.rs:153-160 | a path is refused exactly when it has no inner slash; an absolute one exactly when it is the root |
| `Paths.PartsOfJoin` | kernel/src/vfs/mod.rs:429-446 | a path built component by component is walked as those components |
| `Virtio.FieldsDisjoint` | kernel/src/virtio/queue.rs:15-25 | no two queue fields share a byte and all lie in the allocation |
| `Virtio.LegacyLayout` | kernel/src/virtio/queue.rs:15-25 | descriptors, available ring and used ring stand where the legacy layout puts them, the used ring at the next multiple of 4096 |
| `Virtio.StepsInOrderIff` | kernel/src/virtio/net.rs:153 | slots stay in step when the counter wraps if and only if the queue size divides 2^16 |
| `Virtio.TakeMoves` | kernel/src/virtio/queue.rs:83-93 | the device fetches posted ids in order, each once |
| `Virtio.ReturnMoves` | kernel/src/virtio/queue.rs:97-112 | a returned id joins the unread queue; no unread element is overwritten |
| `Virtio.PollMoves` | kernel/src/virtio/net.rs:169-177 | reading takes the oldest unread element |
| `Virtio.PlaceMoves` | kernel/src/virtio/net.rs:191-194 | placing an id overwrites no slot the device has yet to fetch |
| `Virtio.CommitMoves` | kernel/src/virtio/net.rs:191-196 | the commit posts exactly that id |
| `Virtio.WriteMoves` | kernel/src/virtio/net.rs:147-157 | the device writes no byte of a frame that is unread or being copied |
| `Virtio.RxCorrect` | kernel/src/virtio/net.rs:147-201 | in every run each buffer has exactly one owner and frames come out once, whole and in order |
| `Virtio.DeliversStored` | kernel/src/virtio/net.rs:167-201 | a packet that the device stores through a descriptor and returns is delivered without its 10-byte header |
| `Virtio.RecvIsRun` | kernel/src/virtio/net.rs:167-201 | an uninterrupted receive is the run of its single accesses |
| `Virtio.RxQueue.constructor` | kernel/src/virtio/net.rs:124-138 | the queue starts with buffers 0 to 7 posted in order |
| `Virtio.RxQueue.PostRxAll` | kernel/src/virtio/net.rs:147-164 | the loop posts all buffers |
| `Virtio.RxQueue.TryRecv` | kernel/src/virtio/net.rs:167-201 | nothing when nothing is unread, else the oldest frame with its buffer posted again |
| `Dirent.RoundTrip` | user/mushell/src/main.rs:308-324 | for a buffer of any size the shell reads back exactly the longest prefix of entries that fits, names and kinds intact, if and only if each of its records has a length that fits 16 bits; up to 65535 bytes all do |
| `Dirent.LongRecordLost` | kernel/src/syscall/fs.rs:528-537 | a record whose length wraps is never read back as its entry |
| `Dirent.FittingIsLongest` | kernel/src/syscall/fs.rs:530-535 | any longer prefix overflows the buffer |
| `Dirent.ShowsRecord` | user/mushell/src/main.rs:308-324 | a record is read back as its own entry |
| `Dirent.RecordNumbers` | kernel/src/syscall/fs.rs:528-545 | record i carries inode 2 + i, the offset of the next record and its kind; the next starts at the first multiple of 8 with room for header, name and NUL |
| `Dirent.GetDents` | kernel/src/syscall/fs.rs:486-555 | the writer loop leaves the specified bytes and no others; EINVAL exactly below 32 bytes |
| `Dirent.ListNames` | user/mushell/src/main.rs:306-324 | the reader loop lists the specified entries |

## Left out

- Hardware plumbing: assembly stubs, descriptor tables, TLB and CR3 instructions, serial, framebuffer, PCI.
- Huge pages in the user half: no operation creates them, so clone and protection changes are modelled on 4 KB leaves; the walk itself keeps its huge-page branches.
- Out of memory: the source panics; the specification functions return None there and theorems speak about runs that do not.
- ELF byte parsing: program headers, dynamic entries, symbols and relocations are given as values; the number of symbols estimated from table positions and reads past the table are not modelled.
- `load_elf_into_space` and `load_dyn_exec`: their copies fit page-aligned segments only; `load_so_at` is modelled and handles every alignment.
- R_X86_64_COPY: a locally defined symbol resolves to itself there, so the usual meaning does not hold.
- Relocation.ResolveAllCorrect: requires targets in the user half that do not overlap each other and do not run across the end of a page; a store that does runs on into the next physical frame, as `Relocation.PutBytes` says, whatever is there.
- Dependencies.DynLinker.LoadNeeded: carries a limit on nesting, which stands for the kernel stack; `Dependencies.LoadDepsReturns` says which limit suffices for names without slashes, and `Dependencies.DivergesIffTrap` when none does.
- Unmapping leaves the areas of the area table as they are, and overlapping areas with different bases are not maintained by the code; `Vma.InsertFinds` has their absence as a precondition.
- SchedulerWaiting.CfsBoundedWaiting: requires slices of at least 87 cycles and unsaturated vruntimes, without which a turn need not cost the running process anything; no boosts, spawns or mode changes meanwhile.
- SchedulerWaiting.WeightedBoundedWaiting: requires neutral affinities and a process that is not killed or made Idle while it waits.
- SchedulerRuns.DeadForever: kills of the running process are excluded from runs; KillSticksIff says what they do. `exit_current` and a forced tick between a sleep request and its interrupt are not modelled.
- The tick counter is read once per interrupt, although the code reads it twice; voluntary and forced counts and the switch counter are outputs only.
- Switchless.ReceivedIsPrefix: has as hypothesis that live channels never share a doorbell slot, which the code does not see to; drops happen between transfers only; memory is sequentially consistent; the waiting sender is a step that may repeat; one sender and one receiver per channel.
- The queued message path, shared buffers without frames and capabilities of `ipc.rs` and `ipc_cap.rs`.
- PolicyRuns.ChannelOpening: the cooldown part requires at most eight recent evictions and ticks that do not run backwards; channel changes by other code may happen between events.
- PolicyTuning.PriorityChangesApart: speaks of the classification's changes; the boosts of pinned pairs and of processes that map much memory set a priority without asking for the cooldown and are not modelled.
- The tuning half and the pair-table half of a report share only the enabled flag and the tick, and are modelled apart.
- The policy engine's log lines, the pinning of hot pairs and their priority boost, memory-pressure table, power report, core hints and affinity changes; the generator of random draws (any draws are allowed). Counters of scheduling events are unbounded numbers, message counts wrap as in 64 bits.
- Virtio.RxCorrect: requires a device that returns each posted id once, with a length within the buffer; the transmit side is left out.
- The ext4 driver: the image is a map from component lists closed under parents. `.` and `..` components, /proc and /dev (answered before the tree is looked at), metadata such as modes, link counts and inode numbers.
- CopyUp.CopyUpInvisible: listings are compared as maps from names to kinds; copying up does move a name in the order of the listing.
- `truncate`, `append`, `chmod`, `chown` and `stat`: they touch a node's contents or metadata only, like the write that is modelled.
- Dirent.RoundTrip: requires non-empty names without NUL.
- TCP and socket stubs, sysinfo, signals, futexes, fork bookkeeping of user processes, benchmarks and demos.
