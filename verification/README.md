# A verified model of okots-os

okots-os is an x86-64 kernel written in Rust. This project models its memory, scheduling, start-up
and time code in Dafny 4.11 and proves what that code keeps, over every input, every interleaving
and every run of the modelled operations. Every statement below is a proof about the model.

## How the project is laid out

| file | what it is about |
|---|---|
| `Arith.dfy`, `Options.dfy` | quotients and remainders, and a value that may be absent, used by the others |
| `Mappings.dfy` | ranges, flags, mapping lists and their meaning: the last range that contains an address decides |
| `Normalize.dfy` | overriding, sorting and merging of mapping lists; the unique normal form |
| `Entries.dfy` | page levels and the bits of table entries |
| `PageTrees.dfy` | the shape of the tables a list stands for, and what a walk of them finds |
| `Renewal.dfy` | what the incremental updater makes of the tables that were there |
| `LargePages.dfy` | where large pages are used |
| `FrameTrees.dfy` | frames in memory, the trees in them (`FrameTrees`) and who owns which frame (`Ownership`) |
| `PageMemory.dfy` | builder, updater, walker and deallocator, writing 512-entry frames in place |
| `Paging.dfy` | creating, updating and freeing page tables, and whole runs of that |
| `AccessRights.dfy` | what the processor allows at an address, over all entries on the way |
| `KernelPaging.dfy` | the kernel's filter and its path for adding ranges |
| `Executor.dfy` | the sleep/notify handshake of the executor |
| `JoinHandle.dfy` | delivery of a spawned task's result |
| `StackClaim.dfy` | how application processors claim stacks |
| `Barrier.dfy` | the start-up barrier between boot core and application processors |
| `FlagIds.dfy`, `FlagBits.dfy`, `FlagCache.dfy` | numbering, packing and caching of CPU flags |
| `MemoryGrab.dfy` | taking all free memory from the firmware |
| `Rtc.dfy`, `Tsc.dfy` | the calendar clock and the time-stamp counter |

Page-table memory is a map from frames to 512 raw entries; a ghost tree says which frames belong to
which table, and frames are counted in multisets, so a leak, a double free or a shared frame would
show as a wrong count. The allocator is an oracle that may refuse at any point. Concurrent code is a
state machine: `Enabled` and `Next` give one atomic step, `Run` says that a sequence of states is an
interleaving, and each promise is a statement about every state of every run.

## What the proofs say about the code

The code does what it is for, with these exceptions. For each the exact condition is proved, and
where the condition does not speak for itself a concrete case is given.

- An update leaves what a rebuild would leave, whatever was there before, exactly when no range that
  covers a 2 MiB block carries HUGE without PAT. The builder moves a set bit 7 to bit 12 before it
  writes a large leaf, the updater does not (`UpdateIsRebuildIff`, `UpdateIsRebuildIffUnambiguous`,
  `HugeFlagUpdateDiffers`).
- The walk of a built table returns the address itself for every mapped address except in large leaves
  with PAT or HUGE, where bit 12 is read as an address bit and the answer is 4096 too high; and a leaf
  above 1 GiB is not mapped at all, which the kernel never asks for (`WalkOfNormal`,
  `PatLeafIsSkewed`, `HugerLeafIsLost`). After any updates the same holds at every address whose own
  flags have no HUGE without PAT (`ServedWalk`, `ServedIdentityIff`); where they do, the answer
  depends on whether the builder or the updater wrote the leaf.
- Large pages are used exactly where all addresses of a block have the same flags (`LargeLeafIff`).
  Judged by entry bits, a table is wasted exactly where 512 leaves with equal bits are not mapped
  alike, which flags that the bits do not show can bring about (`NothingWastedIff`,
  `PatWastesTable`); with PRESENT set and PAT and HUGE clear it never happens.
- The add path updates a clone of the recorded table, so an earlier addition stays in force only where
  the next one overrides it or the record already said the same (`RunAdditions`,
  `EarlierAdditionKept`, `WalkAfterAdditions`). Two ACPI pages mapped one after the other are a case:
  the second unmaps the first (`SecondPageUnmapsFirst`). Had the record been refreshed, additions
  would accumulate (`RefreshedAdditionsAccumulate`).
- A request that asks for nothing, or for nothing but EXECUTE_DISABLE without NX, is dropped by the
  filter (`RequestLostIffEmpty`, `KeepMeaning`); the request to unmap the null page is one (`NullPageStaysMapped`).
- A waker's push can be lost exactly when the executor has already seen its queue empty, neither
  `noise` nor the interrupt is up, and every spawner is idle, has decided not to send, or will decide
  so because the executor is still online (`WakerPushLostIff`, `WokenTaskCanBeLost`). A spawned task
  is never lost: it is polled, in hand or queued in the order of the pushes (`FirstInFirstOut`,
  `PushedTaskIsSomewhere`), while it is queued a halted executor is notified (`NoLostWakeup`), and then
  its own steps pop the head of the queue (`HeadGetsPopped`). No task at all is lost without such a
  late push since the executor was last up (`NothingLostWithoutLatePush`).
- The poll of a task finishes exactly when it does not ask for the lock of its own queue, as a
  task that wakes itself does (`PollReturnsIff`); otherwise nobody can push again
  (`AskingBlocksEveryone`).
- The barrier completes exactly when no core is still waiting for the timer flag when it is lowered
  (`CompletesIffPulseSeen`, `PulseCanBeMissed`).
- Setting the real-time clock and reading it back works for every year from 1970 below 16000, and for
  no other (`SetThenGet`).

The counter of uniform tables that `update_recursive` keeps is thrown away by its caller, so the
rebuild branch of `update_paging` is never entered: `UpdatePaging` keeps the recorded counter at 0.

A build that fails gives back the table it was filling but not the lower tables it had completed:
exactly those are lost (`CreateRecursive`, `UpdateRecursive`).

## Assumptions

Addresses and lengths are unbounded numbers, so `start + len` does not wrap. Ranges handed to the
page-table code end at or below 2^52, the physical addresses an entry can hold. Atomics are
sequentially consistent. Entries of a table in use that are not present are 0, which the code itself
keeps. The counts between two readings of a core's clock are a difference of 64-bit words.
`create_page_table` is modelled with its safety checks switched on. Two vectors used in
parallel are one list of pairs, as the code zips them.

## Model

| member | source | states |
|---|---|---|
| `Normalize.TrimAt` | src/memory/paging.rs:418-441 | one round of the inner scan removes, splits, trims or keeps the entry it looks at, leaves all others in place, and moves on by what is left of that entry |
| `Normalize.Override` | src/memory/paging.rs:413-443 | the scan ends although it removes and inserts; one new range overrides all earlier ones |
| `Normalize.OverrideMeaning` | src/memory/paging.rs:413-443 | after it every address has the new flags inside the new range and its old flags outside |
| `Normalize.CarveAllSeparated` | src/memory/paging.rs:413-443 | what is left of disjoint ranges, and the new range, are pairwise disjoint |
| `Normalize.CarveAllSize` | src/memory/paging.rs:427-432 | of disjoint ranges a new one splits at most one |
| `Normalize.SortByStart` | src/memory/paging.rs:445 | sorted by start, and a permutation |
| `Normalize.Merge` | src/memory/paging.rs:447-460 | neighbours that abut with equal flags are fused, nothing else changes meaning |
| `Normalize.NormalizeMapList` | src/memory/paging.rs:403-466 | last writer wins at every address; the output is ordered and disjoint, has at most 2n-1 ranges, keeps alignment and flags, and is normal when all input ranges are positive |
| `Normalize.UniqueNormalForm` | src/memory/paging.rs:403-466 | two normal lists with the same meaning are equal |
| `Normalize.NormalizeCanonical` | src/memory/paging.rs:403-466 | inputs with the same meaning normalise to the same list |
| `Normalize.NormalizeIdempotent` | src/memory/paging.rs:403-466 | normalising a normalised list changes nothing |
| `Normalize.NormalizeAppend` | src/main.rs:697-711 | normalising a normalised list with more ranges appended equals normalising everything at once |
| `Entries.IndexOfBlock` | src/memory/paging.rs:144-147 | the table index of an address picks the block that holds it, at every level |
| `Entries.HoldableAddresses` | src/memory/paging.rs:31-32 | entries can hold exactly the page addresses below 2^52 |
| `Entries.LeafDecode` | src/memory/paging.rs:84-130 | a written leaf reads back present, large exactly above the lowest level, with its attribute bits, and with its address off by bit 12 |
| `Entries.HugeEncodingsAgree` | src/memory/paging.rs:600-612 | builder and updater write the same large leaf if and only if HUGE implies PAT |
| `PageTrees.OverlapNested` | src/memory/paging.rs:294-303 | filtering the list level by level loses nothing a lower table needs |
| `PageTrees.HugeIffCovered` | src/memory/paging.rs:309-313 | on normal lists the large-page test holds exactly when the level allows it and one range covers the block |
| `PageTrees.WalkTable` | src/memory/paging.rs:468-492 | the walk of a built table of any level ends at the leaf that the meaning of the list calls for, or finds nothing |
| `PageTrees.WalkResult` | src/memory/paging.rs:468-492 | the address returned, for every list, every allowed level and every address |
| `PageTrees.WalkOfNormal` | src/memory/paging.rs:468-492 | a mapped address is returned as itself if and only if it is not in a covered 2 MiB block with PAT or HUGE |
| `PageTrees.PatLeafIsSkewed` | src/memory/paging.rs:84-119 | a concrete list on which the walk is off by 4096 |
| `PageTrees.HugerLeafIsLost` | src/memory/paging.rs:315-340 | a mapped address is not found if and only if large pages are allowed above 1 GiB and one range covers its 512 GiB block, for both kinds of root |
| `Renewal.UpdateIsRebuildIff` | src/memory/paging.rs:580-676 | the update of every table equals the rebuild if and only if all large leaves are encoded alike |
| `Renewal.UpdateIsRebuildIffUnambiguous` | src/memory/paging.rs:600-612 | that is, if and only if no range that covers a 2 MiB block carries HUGE without PAT |
| `Renewal.HugeFlagUpdateDiffers` | src/memory/paging.rs:646-662 | a concrete list whose table changes when it is updated with the list it was built from |
| `Renewal.RenewedWalkTable` | src/memory/paging.rs:580-676 | whatever the table held, after an update the walk ends at the leaf the list calls for, at every address whose own flags have no HUGE without PAT |
| `LargePages.LargeLeafIff` | src/memory/paging.rs:309-313 | a block whose level allows it becomes one leaf if and only if all its addresses are mapped with the same flags |
| `LargePages.NothingWastedIff` | src/memory/paging.rs:252-401 | at every depth, no entry that could be a large leaf points to a table of 512 leaves with equal bits, if and only if every block that would look so is mapped alike |
| `LargePages.BuildWastesNothing` | src/memory/paging.rs:252-401 | that is so for every list of flags with PRESENT and without PAT and HUGE |
| `LargePages.PatWastesTable` | src/memory/paging.rs:120-130 | a concrete list with PAT on which that fails |
| `LargePages.ShapedWastedIff` | src/memory/paging.rs:646-650 | the same exact condition for updated tables, for all flags and whatever they held before |
| `FrameTrees.FindInTree` | src/memory/paging.rs:468-492 | the walk over memory sees the shape of the tree in it |
| `PageMemory.CheckUniform` | src/memory/paging.rs:678-704 | the fragmentation test holds exactly for 512 contiguous leaves with equal attributes |
| `PageMemory.PageMemory.AllocZeroed` | src/memory/paging.rs:259-266 | a zeroed frame, or a refusal, which is counted |
| `PageMemory.PageMemory.CreateRecursive` | src/memory/paging.rs:252-401 | builds the table the list stands for out of fresh frames only; it fails if and only if the allocator refused; then every frame that was live is untouched, the table being filled is given back, and the frames lost are exactly those of complete lower tables |
| `PageMemory.PageMemory.UpdateEntry` | src/memory/paging.rs:614-676 | one entry: cleared, made a leaf, descended into or built, with the tables it lets go of |
| `PageMemory.PageMemory.UpdateRecursive` | src/memory/paging.rs:580-707 | the new shape is that of the update on shapes; old frames plus fresh ones are exactly the new tree, the detached tables, which come back intact with their levels, and on failure complete lower tables; the counter grows by the uniform tables that stayed in use; it fails if and only if the allocator refused |
| `PageMemory.PageMemory.DeallocRecursive` | src/memory/paging.rs:501-517 | frees exactly the frames of the tree, each once |
| `PageMemory.PageMemory.FreeNotUsed` | src/memory/paging.rs:574-578 | frees exactly the frames of the detached tables, each once |
| `PageMemory.PageMemory.GetAddr` | src/memory/paging.rs:468-492 | the loop over the levels computes the walk |
| `Paging.CreatePageTable` | src/memory/paging.rs:192-239 | rejects exactly the bad inputs and then touches nothing; otherwise it succeeds if and only if the allocator did not refuse, and the new tree implements the normalised input |
| `Paging.UpdatePaging` | src/memory/paging.rs:521-572 | the record, the tree and the frames after an update, for every input and every old tree; the counter stays 0; it fails if and only if the allocator refused, and then the record is unchanged |
| `Paging.LiveAfterFree` | src/memory/paging.rs:574-578 | freeing what an update detached never touches the live tree |
| `Paging.NothingLeaks` | src/memory/paging.rs:635-672 | after update and free the live frames are the others plus those of the new tree |
| `Paging.Run` | src/memory/paging.rs:521-572 | creation and any number of updates: the record describes the tree after each, and no frame is lost or gained; on failure too, frames from before are untouched and the tree stays well formed |
| `Paging.ServedWalk` | src/memory/paging.rs:468-492 | after any such run the walk answers what the last request says of the address, for aligned requests and wherever the flags there have no HUGE without PAT: the address itself where PAT is clear |
| `Paging.ServedIdentityIff` | src/memory/paging.rs:468-492 | it is the identity there if and only if the address is not in a 2 MiB block that one range covers with PAT |
| `Paging.UpdateEqualsRebuild` | src/memory/paging.rs:580-676 | two trees that serve the same request, by whatever history, have the same shape and the same recorded mapping |
| `Paging.LargePagesIff` | src/memory/paging.rs:646-650 | the exact condition for wasted tables, for every created or updated tree in memory and all flags |
| `Paging.LargePagesEverywhere` | src/memory/paging.rs:646-650 | with plain flags no such tree wastes a table |
| `Paging.NoUniformTableBelow` | src/memory/paging.rs:678-704 | the fragmentation test never holds for a table below an entry that allows large pages |
| `AccessRights.RightsAreAsAsked` | src/memory/paging.rs:25-29 | in every created or updated tree, for all flags: wherever the walk finds an address, writing and user access over all entries passed, execution over any of them, and the cache, accessed, dirty and global bits of the leaf are what the mapping asks for there |
| `AccessRights.ServedRights` | src/memory/paging.rs:521-572 | after any run of requests the rights at an address are those of the last range of the last request, and there are none where it maps nothing |
| `AccessRights.RelaysAreOpen` | src/memory/paging.rs:590-598 | every entry above a leaf has PRESENT, WRITABLE and USER_PAGE set and no other flag bit |
| `KernelPaging.RetainMapped` | src/main.rs:587-601 | the paired removal over two vectors of any lengths keeps ranges and flags in step, and fails exactly when a flag without a range is dropped |
| `KernelPaging.KeepMeaning` | src/main.rs:584-601 | at every address the filtered list has the flags of the last entry that contains it and is not dropped, with EXECUTE_DISABLE exactly if the entry has it and NX exists; and nothing if there is no such entry |
| `KernelPaging.RequestLostIffEmpty` | src/main.rs:587-601 | a mapping anywhere in the list is without effect if and only if it asks for nothing, or only for EXECUTE_DISABLE where NX does not exist |
| `KernelPaging.NullPageStaysMapped` | src/main.rs:487-488 | the request to unmap the null page changes nothing there |
| `KernelPaging.AddPaging` | src/main.rs:697-711 | what one addition installs, with the record left as it was |
| `KernelPaging.RunAdditions` | src/main.rs:579-619 | after any number of additions only the last is installed on top of the record |
| `KernelPaging.EarlierAdditionKept` | src/main.rs:603-610 | after a second addition the installed mapping says at an address what both additions would, if and only if the second writes it, the first does not, or the first wrote what the record has |
| `KernelPaging.WalkAfterAdditions` | src/main.rs:697-711 | the walk then finds exactly what the record or the last addition writes |
| `KernelPaging.AcpiPageRights` | src/acpi/handler.rs:41-60 | a page just added for ACPI is writable, uncached, for the kernel alone, and not executable exactly if NX exists |
| `KernelPaging.SecondPageUnmapsFirst` | src/acpi/handler.rs:41-60 | of any two pages mapped for ACPI one after the other, the first not mapped by the record, the walk loses the first |
| `KernelPaging.RefreshedAdditionsAccumulate` | src/main.rs:697-711 | with a refreshed record, adding step by step equals adding all at once |
| `Executor.FirstInFirstOut` | src/asy_nc/mod.rs:302-310 | in every run the tasks pushed are, in order, those whose polls have ended, the one in hand, and the queue |
| `Executor.PushedTaskIsSomewhere` | src/asy_nc/mod.rs:256-283 | any pushed task is later polled, in hand or queued, behind exactly the tasks pushed before it |
| `Executor.StepInv` | src/asy_nc/mod.rs:298-328 | every step of executor, spawner or waker keeps the handshake invariant |
| `Executor.NoLostWakeup` | src/asy_nc/mod.rs:174-199 | halted with a spawned task queued: the interrupt is pending or a spawner is bound to send it, in every interleaving with wakers |
| `Executor.SettledMeansPending` | src/asy_nc/mod.rs:174-254 | once no spawner is going to send any more the interrupt is pending |
| `Executor.HeadGetsPopped` | src/asy_nc/mod.rs:298-310 | from every state in which the executor is up or notified its own next steps, a bounded number, pop the head of the queue |
| `Executor.AnyInterruptWakes` | src/asy_nc/mod.rs:320-323 | any interrupt brings a halted executor back to such a state |
| `Executor.IdleGetsToSleep` | src/asy_nc/mod.rs:311-325 | with no task and no ticket it halts after a bounded number of its own steps |
| `Executor.SleepsOnlyWhenIdle` | src/asy_nc/mod.rs:311-325 | it goes to sleep only after finding no tickets and no tasks and then noise down, without having been up in between |
| `Executor.OnlineExactlyUnlessAway` | src/asy_nc/mod.rs:320-323 | the online flag is false exactly from the store before the halt to the one after it |
| `Executor.PollBeginsQuiet` | src/asy_nc/mod.rs:303-305 | every poll begins with noise down |
| `Executor.SendsIff` | src/asy_nc/mod.rs:184-196 | in every run a spawner sends if and only if it found noise down at its swap or the executor offline at its look |
| `Executor.PendingIffSent` | src/asy_nc/mod.rs:194-196 | the interrupt is pending if and only if one was sent and not taken since |
| `Executor.CommittedSends` | src/asy_nc/mod.rs:184-196 | in every interleaving a committed spawner stays so until its own send makes the interrupt pending |
| `Executor.NothingLostWithoutLatePush` | src/asy_nc/mod.rs:298-354 | without a waker push since the executor was last up and then saw its queue empty, halted with any task queued means notified, whatever happened earlier in the run |
| `Executor.WakerPushLostIff` | src/asy_nc/mod.rs:346-354 | in every reachable state a waker push can be lost if and only if the executor has already seen its queue empty, noise and interrupt are down, and no spawner in flight is bound to send |
| `Executor.DoomedStays` | src/asy_nc/mod.rs:314-325 | a lost task stays lost until somebody spawns or wakes again or another interrupt comes |
| `Executor.WokenTaskCanBeLost` | src/asy_nc/mod.rs:346-354 | a concrete run that ends with a task lost |
| `Executor.LockStep` | src/asy_nc/mod.rs:302-310 | between steps the queue lock is held exactly while a popped task is on its way through its poll |
| `Executor.PollReturnsIff` | src/asy_nc/mod.rs:302-310 | from every reachable state inside a poll the executor can come back if and only if the polled future does not ask for its own queue |
| `Executor.AskingBlocksEveryone` | src/asy_nc/mod.rs:302-310 | otherwise the poll never ends, nothing is popped, no spawner and no waker can push, and the queue never changes |
| `Executor.AskingTaskGetsPolled` | src/asy_nc/mod.rs:346-354 | a concrete run that gets there |
| `JoinHandle.DeliveredAtMostOnce` | src/asy_nc/mod.rs:111-122 | the result is delivered at most once and is the future's own |
| `JoinHandle.PendingHandleIsWoken` | src/asy_nc/mod.rs:261-273 | once completion has finished, a handle last told Pending has been woken through that poll's waker, which is no longer kept, unless its result was delivered before |
| `JoinHandle.NextPollDelivers` | src/asy_nc/mod.rs:111-122 | after that the next poll delivers the result |
| `JoinHandle.PollGoesOn` | src/asy_nc/mod.rs:111-122 | a poll that has begun and not ended can always go on, at once or after the completer has woken somebody |
| `StackClaim.ClaimsAreExclusive` | src/arch/x86_64/trampoline.asm:107-138 | whatever the number of cores, no two claim the same stack or index, and each claims a real stack |
| `StackClaim.SentinelNeverReached` | src/arch/x86_64/trampoline.asm:107-138 | with no more cores than stacks no core reaches the sentinel, and each claims within as many probes as there are stacks |
| `StackClaim.CrashIffTooManyCores` | src/arch/x86_64/trampoline.asm:115-125 | in every finished run some core has crashed if and only if there are more cores than stacks |
| `StackClaim.RunsFinish` | src/arch/x86_64/trampoline.asm:118-134 | every run finishes: until then some core can move, and there are only so many steps |
| `Barrier.PublishAfterAllCalibrated` | src/main.rs:287-317 | the boot core publishes its clock only after every core has calibrated |
| `Barrier.LeaveAfterAllAdjusted` | src/main.rs:340-377 | it leaves only after every core has stored its rate, the counts between its one reading with the flag up and its one reading after, per 100 ns, and its adjustment, the one reading the boot core published less the one reading the core took after it |
| `Barrier.ResetLosesNothing` | src/main.rs:287-317 | at each reset every core has made exactly the increments waited for, and the counter is always their sum, and 0 at the end |
| `Barrier.CompletesIffPulseSeen` | src/main.rs:301-317 | from every reachable state after the pulse the boot core can still leave if and only if no core is still waiting for the flag |
| `Barrier.EveryRunCompletes` | src/main.rs:301-377 | then every run completes: until the boot core has left something can move, and each step is one fewer to make |
| `Barrier.MissedPulseStalls` | src/main.rs:301-308 | a core still waiting after the pulse waits for ever, and nothing is published |
| `Barrier.PulseCanBeMissed` | src/main.rs:301-308 | a concrete run in which that happens |
| `FlagIds.Expander.ExpandTree` | local_macros/src/lib.rs:58-93 | appends the flags of a tree in order, with consecutive ids and path names |
| `FlagIds.DefineCpuFlags` | local_macros/src/lib.rs:95-100 | ids are the positions and names the joined paths, different for different paths of names without underscore; every flag has a bit of its own inside the words, and no word is without a flag |
| `FlagIds.JoinedIsInjective` | local_macros/src/lib.rs:68-85 | joining with underscores loses nothing as long as no name has one |
| `FlagBits.FetchOrBit` | local_macros/src/lib.rs:175-180 | setting the bit of one flag changes no other |
| `FlagBits.FetchAndNotBit` | local_macros/src/lib.rs:175-180 | nor does clearing it |
| `FlagCache.CpuFlagCache.Has` | local_macros/src/lib.rs:159-182 | the cached answer is that of uncached detection, through nested detectors; nothing known is forgotten |
| `FlagCache.AdvanceLocal` | local_macros/src/lib.rs:159-182 | an atomic step of a call touches the bits of one flag only |
| `FlagCache.AnswersAreTrue` | local_macros/src/lib.rs:159-182 | in every interleaving of any number of calls each answer is that of uncached detection, and the flag is known from then on |
| `FlagCache.KnownIsNotDetectedAgain` | local_macros/src/lib.rs:165-169 | a call that comes to a flag already known only looks, in every interleaving |
| `FlagCache.CallsEnd` | src/cpu_flags/mod.rs:93-106 | every call ends within a number of steps fixed by the detectors, whatever the others do |
| `FlagCache.KernelFlagsRanked` | src/cpu_flags/mod.rs:93-106 | the kernel's detectors never ask in a circle |
| `FlagCache.KernelFlagsTruth` | src/cpu_flags/mod.rs:93-174 | what each of the ten flags comes to, through the flags it depends on |
| `MemoryGrab.Firmware.TakeAll` | src/main.rs:550-567 | from any first size the loop ends; blocks are disjoint and with what is left make up what was free; none is larger than the first size; from two pages up none is smaller than two pages and no run of three free pages is left |
| `MemoryGrab.Firmware.ChangeAllocator` | src/main.rs:534-567 | started from all free memory, never more than 2 GiB at once, no run of three free pages is left |
| `Rtc.BcdRoundTrip` | src/timer/rtc.rs:36-43 | encoding is undone by decoding exactly below 160 |
| `Rtc.NoUnderflow` | src/timer/rtc.rs:144-147 | the closed form never goes below zero on the way |
| `Rtc.ClosedFormCountsDays` | src/timer/rtc.rs:144-158 | leap-day formula and month loop equal the count of days one by one from 1970-01-01 |
| `Rtc.SecondsOfDays` | src/timer/rtc.rs:161-164 | the count of seconds one by one, over minutes, hours, days, months and years, in days, hours, minutes and seconds |
| `Rtc.DateShown` | src/timer/rtc.rs:124-143 | the decimal digits in the registers are those of year, month and day |
| `Rtc.TimeShown` | src/timer/rtc.rs:124-133 | and of hour, minute and second, with twelve hours more in the afternoon |
| `Rtc.SetThenGet` | src/timer/rtc.rs:69-86 | for every valid date and time from 1970, set then get gives the seconds counted one by one from 1970-01-01 if and only if the year is below 16000 |
| `Rtc.Clock.SetTime` | src/timer/rtc.rs:69-86 | the registers afterwards |
| `Rtc.Clock.GetTime` | src/timer/rtc.rs:121-167 | from still registers the count of seconds of the date and time they show when valid, counted on from midnight when only the date is; no reading exactly for years before 1970, months past 13 and day 0 |
| `Tsc.LargestReached` | src/timer/tsc.rs:70-78 | the reading in 100 ns units is the largest whose counts the adjusted counter has reached, and 0 when that is negative |
| `Tsc.LargestNanosReached` | src/timer/tsc.rs:101-111 | so is the reading in nanoseconds as long as it fits in 64 bits, and it is 0 before calibration |
| `Tsc.ReadingsAgree` | src/timer/tsc.rs:70-111 | the reading in 100 ns units equals the nanoseconds divided by 100 if and only if those fit in 64 bits |
| `Tsc.Spin` | src/timer/tsc.rs:113-129 | the wait ends at the first reading past the target |
| `Tsc.SpinWaitsLongEnough` | src/timer/tsc.rs:101-129 | by then the clock has advanced by the wait less at most ceil(99/p) ns |

## Left out

- Hardware effects: CR3/CR4 access, TLB flushes, MSRs, ports, GDT and IDT set-up, interrupt handlers; an inter-processor interrupt is one pending bit.
- `TimerFuture` and `check_timers`: the future registers in the per-core default executor while the loop reads the executor's own tickets, so there is no end-to-end property; whether tickets are empty is a free choice in the model.
- The heap allocator, the firmware allocator, the entry constructors of the x86 crate and the spin locks: assumed to hand out fresh aligned frames, to add address and flag bits, and to be atomic.
- `src/simd/mod.rs`, the logger, `SmartPtr`, PCI, AML, ACPI discovery, virtio, YAML and rhai bindings, build scripts, mode switching in the trampoline: I/O, glue, or properties settled by one branch.
- The timeout branch of the boot core's first wait: the barrier is modelled with exactly as many cores as the boot core waits for.
- Weak memory orderings: all atomics take effect in one order.
- The choice of an executor by `spawn_global` and of a core by its APIC id.
- The rebuild branch of `update_paging`: it cannot be reached, so its body is not modelled.
- Flag detection before the per-core data exists, when every flag reads as absent, and the CPUID reads themselves, which are inputs.
- The 12-hour mode of the real-time clock beyond what the code computes, registers that change while they are read, and `sync_and_get_time`.
- Paging.UpdatePaging: the list is described only for ranges below 2^52; the code itself does not check this.
- Tsc.Spin: ends because the counter is taken to pass the target at some reading.
- Tsc.SpinWaitsLongEnough: is stated for adjusted readings that are not negative and nanoseconds that fit in 64 bits.
