# Najm OS, verified model

A Dafny model of the parts of Najm OS whose correctness is a matter of whole histories or of two
descriptions agreeing, with proofs about every input, every history and every reachable state.
`dafny verify dfyconfig.toml` checks everything.

| Part | Files | Main results |
|---|---|---|
| Scheduler and kernel stacks | `SchedClasses`, `KernelStacks`, `SchedModel`, `SchedInvariants`, `SchedBounds`, `SchedNormalWait`, `SchedStarvation`, `SchedDonations`, `SchedTurns`, `SchedStats`, `Scheduler` | conservation of tasks and slots, exact turns, rescue rate, latency bounds over every history, and the exact conditions of two promises that do not hold outright |
| Physical memory and address spaces | `PhysicalMemory`, `PageTables`, `FrameAllocation`, `Permissions`, `MapPages`, `AddressSpaces`, `Machine` | byte-level page tables, disjointness of all frames, isolation over every history |
| ELF loader | `ElfLoader`, `ElfPrinter` | a loaded space is exactly the file's segments and a stack, with exactly the rights its headers ask for, or nothing |
| SHA-256 and packages | `Bytes`, `Sha256Standard`, `Sha256Constants`, `Sha256Example`, `Sha256Kernel`, `StorePackage` | both implementations equal FIPS 180-4, constants included; built packages verify |
| Archive and filesystem | `Paths`, `ArchiveFormat`, `ArchiveRoundTrip`, `FileSystem`, `ArchiveBuilder` | build, mount, list and read back |
| Descriptors | `Descriptors` | reads join up under any interleaving, also after a seek |
| Compositor | `Framebuffers`, `Tiling`, `TrustBar`, `Compositor` | tiling geometry; non-interference of the trusted strip, down to bytes |
| IPC ports | `Ipc` | exactly once, in order, over every interleaving; a port lives until its creator ends it |
| PE relocation | `RelocationTable`, `Relocations` | exact parsing; moving an image and moving it back |
| Calendar | `Calendar` | closed form equals naive counting |

State that the kernel updates in place is a class with methods proved against a specification on
values; the theorems about histories are about those specifications.

Where the code and its own prose disagree, the model follows the code:

- `kernel/src/sched/class.rs` says that no ready task waits more than half a second. Rescue serves
  the lowest starving class first, so Background tasks can take every rescue a Normal task needs. A
  Normal task's wait is bounded exactly when at most seven Background tasks are queued at a time
  (`SevenIsExact`): then it is at most 49 + 7(k+1)(p+1) ticks (`NormalWait`), and with eight it can be
  made as long as one likes (`NormalStarvesForever`). Background and Realtime waits are always bounded
  (`BackgroundWait`, `RealtimeLatency`).
- The same file says that rescues cost the Realtime class at most one tick in five. That holds while
  another Realtime task is queued (`OneInFive`, `DonationsApart`). But `should_preempt` does not
  consult the promotion interval, so a Realtime task running alone gives way to any starving task
  (`TickTakesRealtime`). What holds always is three in five (`ThreeInFive`), and that is reached
  (`ThreeInFiveForever`).
- `kernel/src/drivers/rtc.rs` accepts second 60 and day 31 of every month. Those readings share their
  value with the next minute and with a day of the next month, and no other readings collide
  (`PlausibleCollisions`).
- The compositor's module text says that the focused Realm is read from the process table at draw
  time; the code reads the copy kept in the surface since its creation, and so does the model.

## Model

| member | source | states |
|---|---|---|
| SchedModel.ChooseIsTheChoice | kernel/src/sched/task.rs:508-548 | `pick_next` is characterised without its loops: the lowest starving class when a rescue is allowed and something starves, flagged as a promotion exactly when a higher class is waiting; otherwise the highest non-empty class, never flagged; nothing only when nothing is ready |
| SchedInvariants.FrontTestIsExact | kernel/src/sched/task.rs:558-564 | in every state with ordered queues, looking only at the front of a queue finds a starving class exactly when scanning the whole queue would |
| SchedInvariants.ApplyKeepsQueues | kernel/src/sched/task.rs:485-489 | every step keeps each queue to its own class and sorted by `ready_since` |
| SchedInvariants.ApplyConserves | kernel/src/sched/task.rs:917-968 | every step keeps each spawned task in exactly one of queues, current, zombie and reaped, and each stack slot with at most one holder, free or live |
| SchedInvariants.SpawnConserves | kernel/src/sched/task.rs:661-728 | spawning takes a slot from the pool to one new task and disturbs no other, also when no slot or no frame is left |
| SchedInvariants.ApplyKeepsRate | kernel/src/sched/task.rs:620-632 | every step counts at most one promotion, stamps it with the present, and only five ticks or more after the one before; 5 x promotions <= last promotion tick <= now |
| SchedInvariants.RunKeepsInvariant | kernel/src/sched/task.rs:765-968 | all of the above hold after any legal run from any state where they hold |
| SchedInvariants.ReachableStates | kernel/src/sched/task.rs:634-647 | all of the above hold in every state reachable from boot |
| SchedInvariants.LiveStacksDisjoint | kernel/src/mm/kstack.rs:92-169 | in every reachable state two slots in use have stacks, guard pages included, that do not meet, and each slot has one user |
| SchedBounds.RealtimeStep | kernel/src/sched/task.rs:834-886 | no step, of any kind, lets a waiting Realtime task fall behind the potential that bounds its wait |
| SchedBounds.RealtimeLatency | kernel/src/sched/task.rs:508-613 | in every run a Realtime task with p ahead of it is dispatched within ceil(5(p+1)/4) ticks, whatever is spawned, yields, exits or changes class meanwhile |
| SchedBounds.StepOnSchedule | kernel/src/sched/task.rs:917-968 | no step lets a waiting task of the lowest waiting class miss its moving deadline |
| SchedBounds.BoundedWait | kernel/src/sched/class.rs:141-161 | in every run a task of a class below which nothing waits is dispatched within 49 + 10(p+1) ticks of becoming ready; for Normal the exact condition is that of `SevenIsExact` |
| SchedBounds.BackgroundWait | kernel/src/sched/task.rs:508-613 | in every run a Background task with p ahead is dispatched within 49 + 10(p+1) ticks, even if higher classes are always ready |
| SchedNormalWait.NormalStep | kernel/src/sched/task.rs:508-613 | no step lets a waiting Normal task miss its moving deadline while at most seven Background tasks are queued |
| SchedNormalWait.NormalWait | kernel/src/sched/task.rs:508-613 | in every run with at most k <= 7 Background tasks queued at a time, a Normal task with p ahead is dispatched within 49 + 7(k+1)(p+1) ticks of becoming ready |
| SchedStarvation.NormalStarvesForever | kernel/src/sched/class.rs:132-141 | the half-second promise does not hold: with at most eight Background tasks queued at a time a Normal task can be kept waiting for any number of ticks, never once dispatched |
| SchedStarvation.SevenIsExact | kernel/src/sched/class.rs:132-141 | a Normal task's wait has a bound exactly when at most seven Background tasks are queued at a time |
| SchedDonations.TickTakesRealtime | kernel/src/sched/task.rs:591-613 | with a Realtime task running, a tick goes to a lower class exactly when a lower task starves and no other Realtime task is queued or a rescue is allowed |
| SchedDonations.TickOvertakes | kernel/src/sched/task.rs:834-886 | for any running task, exactly when a tick leaves a Realtime task waiting behind a lower one, and when that is recorded |
| SchedDonations.DonationsApart | kernel/src/sched/class.rs:143-161 | in every run two picks that pass over a queued Realtime task are at least five ticks apart |
| SchedDonations.OneInFive | kernel/src/sched/class.rs:143-161 | the one-tick-in-five promise, where it holds: in every run whose every tick finds a Realtime task queued |
| SchedDonations.ThreeInFive | kernel/src/sched/task.rs:591-613 | in every run the Realtime class loses at most three ticks in five to lower classes, up to a constant for each arrival, yield, exit or class change of its own |
| SchedDonations.SteadyShare | kernel/src/sched/task.rs:591-613 | with none of those, of any n ticks at most 3n/5 + 1 are lost |
| SchedDonations.ThreeInFiveForever | kernel/src/sched/class.rs:143-161 | that rate is reached for ever, by the timer alone, so one in five does not hold |
| SchedTurns.TurnEnds | kernel/src/sched/class.rs:85-91 | with a peer queued, nothing higher waiting and nothing starving, a tick hands the CPU to the front peer exactly when the running task has had its 1, 3 or 6 ticks (one for a rescued task), and changes nothing but the clock and the counts otherwise |
| SchedTurns.UrgentTakesOver | kernel/src/sched/task.rs:591-613 | a higher class queued takes the CPU at the next tick, whatever is left of the turn |
| SchedTurns.StarvedIsServed | kernel/src/sched/task.rs:508-548 | when a turn ends and the last promotion is five ticks ago, the lowest class whose front has waited fifty ticks gets the CPU, flagged as a promotion and stamped exactly if that passes over a higher class |
| SchedTurns.YieldHandsOver | kernel/src/sched/task.rs:917-968 | a yield and an exit give the CPU at once to the front of the highest class queued unless a rescue is due; who yields goes last in its queue, who exits becomes the zombie |
| SchedTurns.LoneYield | kernel/src/sched/task.rs:917-968 | with nobody else ready a yield changes nothing |
| SchedTurns.AloneKeepsRunning | kernel/src/sched/task.rs:834-886 | with nobody to hand over to the running task keeps the CPU |
| SchedTurns.RoundRobin | kernel/src/sched/class.rs:85-91 | tasks of one class alone on the machine, few enough that none starves between its turns, hold the CPU in queue order for exactly 1, 3 or 6 ticks each, for ever: who runs after n ticks, and since when |
| SchedStats.StepRecords | kernel/src/sched/task.rs:620-632 | every step changes the statistics exactly for the task it gives the CPU to, if any |
| SchedStats.FiguresAreMeasured | kernel/src/sched/task.rs:1230-1239 | in every history from boot the reported dispatch counts and longest waits are those of the history |
| KernelStacks.SlotsAreDisjoint | kernel/src/mm/kstack.rs:92-157 | slot arithmetic never overlaps two stacks or their guard pages, nor wraps past 2^64 |
| Scheduler.StackAllocator.Claim | kernel/src/mm/kstack.rs:92-157 | free list first, then the counter, up to 256 slots; a slot whose mapping fails is not returned |
| Scheduler.StackAllocator.GiveBack | kernel/src/mm/kstack.rs:165-169 | the slot goes on top of the free list |
| Scheduler.Scheduler.PushReady | kernel/src/sched/task.rs:485-489 | the task joins the end of its class queue with a fresh time stamp and no promotion mark |
| Scheduler.Scheduler.HigherClassWaiting | kernel/src/sched/task.rs:551-555 | true exactly when a queue above the class is not empty |
| Scheduler.Scheduler.AnyTaskStarving | kernel/src/sched/task.rs:558-564 | true exactly when the front of some queue has waited 50 ticks |
| Scheduler.Scheduler.PickNext | kernel/src/sched/task.rs:508-548 | the loops of the source pick exactly the task and the flag characterised by `ChooseIsTheChoice`, and move the promotion time only for a promotion |
| Scheduler.Scheduler.RecordDispatch | kernel/src/sched/task.rs:620-632 | the counters of the class and the new current task are those of the model |
| Scheduler.Scheduler.MustPreempt | kernel/src/sched/task.rs:591-613 | exactly the quantum, the cross-class and the starvation conditions |
| Scheduler.Scheduler.Switch | kernel/src/sched/task.rs:917-968 | the whole state after `plan_switch` is that of the model for each kind of switch |
| Scheduler.Scheduler.TimerInterrupt | kernel/src/sched/task.rs:834-886 | the whole state after a tick is that of the model |
| Scheduler.Scheduler.YieldNow | kernel/src/sched/task.rs:739-818 | the whole state after a yield is that of the model |
| Scheduler.Scheduler.SpawnTask | kernel/src/sched/task.rs:661-728 | the whole state after a spawn is that of the model |
| Scheduler.Scheduler.DropTask | kernel/src/sched/task.rs:245-255 | dropping a task returns its slot once |
| Scheduler.Scheduler.RunPicked | kernel/src/sched/task.rs:1283-1349 | picking and dispatching from the idle loop is the step of the model |
| Scheduler.Scheduler.ExitTask | kernel/src/sched/task.rs:1119-1211 | the whole state after an exit is that of the model, the earlier zombie included |
| Scheduler.Scheduler.SetCurrentClass | kernel/src/sched/task.rs:1249-1255 | only the class of the current task changes |
| Scheduler.Scheduler.StartRunning | kernel/src/sched/task.rs:1283-1349 | the whole state after the boot context runs a task is that of the model |
| Scheduler.Scheduler.ReapExited | kernel/src/sched/task.rs:1218-1221 | the zombie is dropped once |
| Sha256Standard.HashBlocksConcat | kernel/src/security/sha256.rs:86-116 | hashing whole blocks in pieces is hashing their concatenation (sections 5.2.1 and 6.2.2 of FIPS 180-4) |
| Sha256Constants.PrimesAreThePrimes | kernel/src/security/sha256.rs:39-52 | the sixty-four numbers used below are the first primes, in order and without a gap |
| Sha256Constants.RoundConstants | kernel/src/security/sha256.rs:39-52 | each round constant is the first 32 bits of the fraction of the cube root of the prime in its place (section 4.2.2) |
| Sha256Constants.InitialHash | kernel/src/security/sha256.rs:33-36 | each initial word is the first 32 bits of the fraction of the square root of the prime in its place (section 5.3.3) |
| Sha256Example.AbcDigest | kernel/src/security/sha256.rs:227-258 | the digest of "abc" is the published one, worked through the schedule and all 64 rounds |
| Sha256Kernel.BuildSchedule | kernel/src/security/sha256.rs:151-167 | the in-place schedule is the recurrence of section 6.2.2 |
| Sha256Kernel.OneRound | kernel/src/security/sha256.rs:169-190 | one rotation of the eight working variables is one round of the standard |
| Sha256Kernel.RunRounds | kernel/src/security/sha256.rs:169-190 | the loop performs the 64 rounds of the standard |
| Sha256Kernel.CompressBlock | kernel/src/security/sha256.rs:151-195 | the state becomes the standard's intermediate hash value |
| Sha256Kernel.Hasher.Update | kernel/src/security/sha256.rs:86-116 | for any length and any bytes buffered before, the message absorbed grows by exactly the data, and the bit count by eight per byte modulo 2^64 |
| Sha256Kernel.Hasher.Fill | kernel/src/security/sha256.rs:86-116 | topping up the buffer, with a compression exactly when it fills |
| Sha256Kernel.Hasher.WholeBlock | kernel/src/security/sha256.rs:86-116 | a block straight from the input |
| Sha256Kernel.Hasher.AbsorbPadding | kernel/src/security/sha256.rs:145-149 | the same without counting, the counter restored |
| Sha256Kernel.Hasher.Finish | kernel/src/security/sha256.rs:119-137 | the padding loop ends, and the digest is that of the standard on everything absorbed |
| Sha256Kernel.HashParts | kernel/src/security/sha256.rs:86-137 | for every message and every split into `update` calls the digest is the standard's on the concatenation |
| Sha256Kernel.BatchHasher.Finish | runner/build.rs:774-846 | the builder's separate implementation gives the standard's digest, hence the kernel's |
| Sha256Kernel.BatchHasher.HashChunks | runner/build.rs:774-846 | chunk by chunk over the padded message |
| Sha256Kernel.DigestOf | kernel/src/security/sha256.rs:119-137 | the eight words written big-endian |
| StorePackage.DigestsEqual | kernel/src/security/sha256.rs:212-218 | the constant-time fold answers equality of all 32 bytes |
| StorePackage.WritePackage | runner/build.rs:697-743 | header, manifest, digest of manifest and clean archive, payload; the corrupt variant flips one bit of the last byte |
| StorePackage.Verify | kernel/src/store.rs:261-350 | every header check and the digest check, as far as the manifest text is taken as given |
| StorePackage.PackageVerdict | kernel/src/store.rs:261-350 | a laid-out package verifies as intact exactly when its digest is that of manifest and payload, and its payload is found |
| StorePackage.VerdictIsExact | kernel/src/store.rs:261-350 | a verdict is given exactly on the bytes of a package with a manifest that parses, and says whether the recorded digest is that of the rest |
| StorePackage.PackageHeader | runner/build.rs:697-743 | the first sixteen bytes of a package and its size, byte by byte |
| StorePackage.BuildThenVerify | runner/build.rs:697-743 | what the builder writes uncorrupted, the kernel finds intact, and hands back the same archive |
| Paths.ParentOfValid | abi/src/archive.rs:169-187 | a valid path other than the root is its parent joined with its basename, and both are valid |
| Paths.ParentOfJoin | abi/src/archive.rs:169-179 | joining a name to a directory is undone by taking the parent |
| Paths.ValidIsExact | abi/src/archive.rs:112-162 | a path is valid exactly when it is "/", or names each after a slash, none empty, "." or ".." or with a NUL, at most 120 bytes in all |
| ArchiveFormat.ParseTableIsExact | kernel/src/fs.rs:145-253 | the table is accepted exactly when every entry is good and no two share a path, and then the namespace has exactly those entries |
| ArchiveFormat.EntryIsExact | kernel/src/fs.rs:145-253 | an entry is read exactly when its 144 bytes are those of an acceptable one: valid path, a file inside the archive or a directory without bytes, bit 0 of the flags for a directory |
| ArchiveFormat.MountIsExact | kernel/src/fs.rs:145-253 | an archive is accepted exactly when it starts with the magic and version 1 and has as many good distinct entries as it says; every mounted file lies inside it |
| ArchiveRoundTrip.ArchiveMounts | kernel/src/fs.rs:145-253 | every printed archive mounts, with each path once and its kind and bytes intact |
| ArchiveRoundTrip.EntryRoundTrip | kernel/src/fs.rs:145-253 | each printed entry is read back as it was written |
| ArchiveRoundTrip.DataRoundTrip | kernel/src/fs.rs:269-305 | each file's place in the data area holds its bytes |
| ArchiveBuilder.CollectDirectories | runner/build.rs:294-307 | exactly the root and every ancestor of every file |
| ArchiveBuilder.CollectContents | runner/build.rs:309-325 | accepts exactly the lists of distinct valid paths none of which is another's ancestor; the namespace is the directories and the files |
| ArchiveBuilder.LayOut | runner/build.rs:327-346 | each file's offset is where its bytes are |
| ArchiveBuilder.Print | runner/build.rs:348-378 | the bytes are header, table and data of the format |
| ArchiveBuilder.BuildArchive | runner/build.rs:287-379 | succeeds exactly on the accepted lists, with the printed archive of their namespace |
| ArchiveBuilder.RoundTrip | kernel/src/fs.rs:145-382 | mounting what the builder made gives exactly the files, their ancestors and "/", each file reads back its bytes, and the namespace is a tree |
| ArchiveBuilder.BuiltSize | runner/build.rs:327-378 | the entry count and the size of an archive, from the files alone |
| ArchiveBuilder.BuildMountRead | kernel/src/fs.rs:373-382 | build, mount and `read_all` in sequence give back a file's bytes, whenever the count and size of the files fit the format |
| FileSystem.ListedIsParent | kernel/src/fs.rs:312-349 | the prefix scan lists a path under a directory exactly when that is its parent |
| FileSystem.MountedPathsValid | kernel/src/fs.rs:145-253 | every path of a mounted namespace is valid |
| FileSystem.ListingIsChildren | kernel/src/fs.rs:312-349 | in every mounted namespace a listing is exactly the children |
| FileSystem.ReachedByListing | runner/build.rs:294-307 | in a tree of directories everything is reached from "/" by repeated listing |
| FileSystem.Fs.Mount | kernel/src/fs.rs:145-253 | all or nothing: the namespace of the format, or the first error and the old filesystem |
| FileSystem.Fs.Lookup | kernel/src/fs.rs:256-260 | the node of a path, if mounted and there |
| FileSystem.Fs.Read | kernel/src/fs.rs:269-305 | the bytes of the node from the offset, clipped to file, buffer and archive; the rest of the buffer untouched |
| FileSystem.Fs.ReadAll | kernel/src/fs.rs:373-382 | the whole file, and nothing for a directory or a missing path |
| FileSystem.Fs.ReadDir | kernel/src/fs.rs:312-349 | each listed path once |
| PhysicalMemory.SetThenGet | kernel/src/mm/address_space.rs:165-237 | an entry written to a table is read back (section 4.5 of the Intel SDM Volume 3A) |
| PhysicalMemory.SetKeepsOthers | kernel/src/mm/address_space.rs:165-237 | writing one entry changes no other entry |
| PhysicalMemory.EntryBits | kernel/src/mm/address_space.rs:165-237 | the bit of each flag and of the frame in an entry (section 4.5 of the Intel SDM Volume 3A) |
| PageTables.WalkStays | kernel/src/mm/address_space.rs:361-390 | a walk from a space's tables stays in that space's frames |
| PageTables.WalkVia | kernel/src/mm/address_space.rs:361-390 | a walk resumes from wherever a prefix of it leads |
| FrameAllocation.FrameAllocator.SkipToUsableRegion | kernel/src/mm/memory.rs:613-622 | the cursor moves to the next usable region and skips no usable frame |
| FrameAllocation.FrameAllocator.AllocateFrame | kernel/src/mm/memory.rs:631-671 | the newest free frame if any, else the next of the enumeration, else nothing |
| FrameAllocation.FrameAllocator.Release | kernel/src/mm/frame_pool.rs:62-77 | a frame joins the list once; a double release is refused |
| FrameAllocation.FrameAllocator.ReleaseAll | kernel/src/mm/frame_pool.rs:62-77 | frames outside the supply all join it |
| FrameAllocation.FrameAllocator.Take | kernel/src/mm/frame_pool.rs:84-92 | an allocation removes exactly one frame from what can still be handed out |
| FrameAllocation.AllocateMany | kernel/src/mm/memory.rs:630-672 | with an empty pool the k-th allocation is the k-th frame of the flattened memory map, and nothing exactly after the last |
| FrameAllocation.AllFramesDistinct | kernel/src/mm/memory.rs:630-672 | on aligned regions that do not overlap no frame appears twice |
| FrameAllocation.FramesFromIsExact | kernel/src/mm/memory.rs:631-671 | the frames between two addresses are exactly those that lie whole between them, in ascending order |
| FrameAllocation.AllFramesIsExact | kernel/src/mm/memory.rs:613-671 | a frame is in the enumeration exactly when it lies whole in a usable region |
| MapPages.NextTable | kernel/src/mm/address_space.rs:540-556 | following or creating one level: a created table maps nothing and is recorded as owned |
| MapPages.MapTo | kernel/src/mm/address_space.rs:165-237 | `map_to` as the four-level walk: the one page is mapped, every other page and the kernel half stay, and each table made is accounted for, also on failure |
| MapPages.UpdateFlags | kernel/src/mm/address_space.rs:246-275 | only the flags of the one page change |
| AddressSpaces.PathIsInjective | kernel/src/mm/address_space.rs:361-390 | two lower-half pages never share all four indices |
| AddressSpaces.PathOfDigits | kernel/src/mm/address_space.rs:361-390 | the four indices are the page number's base-512 digits, the top table's first |
| AddressSpaces.ChunkWritten | kernel/src/mm/address_space.rs:286-320 | writing a chunk through one translation changes exactly the addressed bytes of the space |
| Machines.UntouchedView | kernel/src/mm/address_space.rs:361-390 | a space whose frames are untouched translates and reads every address as before, kernel half included |
| Machines.LocalStepIsolates | kernel/src/mm/address_space.rs:165-237 | a step that writes only its own or fresh frames is invisible to every other space and to the kernel |
| Machines.LocalStepKeepsMachine | kernel/src/mm/address_space.rs:165-237 | such a step keeps all frames of live spaces, kernel and supply pairwise disjoint |
| Machines.AccessibleIsOwned | kernel/src/mm/address_space.rs:434-466 | a page the check admits is mapped, to a frame of that space, with the needed right at every level |
| Permissions.AccessibleIsAllowed | kernel/src/mm/address_space.rs:434-466 | the check says yes exactly when the walk exists and every entry on it is present, for user code, and writable if asked |
| Permissions.AddedGrow | kernel/src/mm/address_space.rs:165-237 | linking a new table or page takes no right from any path and bars none from executing |
| Permissions.WidenedGrow | kernel/src/mm/address_space.rs:165-237 | nor does adding rights to a table entry that was there |
| Machines.Machine.NewSpace | kernel/src/mm/address_space.rs:89-144 | a fresh space maps nothing in its lower half, shares the kernel half, and no other space notices |
| Machines.Machine.MapPage | kernel/src/mm/address_space.rs:165-237 | exact outcomes; on success one fresh frame at one unmapped page and every frame accounted for; every other page and byte stays |
| Machines.Machine.Install | kernel/src/mm/address_space.rs:185-237 | the same after the frame was taken; a frame that cannot be mapped is the only one lost |
| Machines.Machine.ProtectPage | kernel/src/mm/address_space.rs:246-275 | succeeds exactly on mapped user pages; new flags, same frame, no byte changed |
| Machines.Machine.WriteAt | kernel/src/mm/address_space.rs:286-320 | exactly the addressed bytes, up to the first unmapped page, which the error names; no mapping changes |
| Machines.Machine.ZeroAt | kernel/src/mm/address_space.rs:328-353 | the same with zeros |
| Machines.Machine.DropSpace | kernel/src/mm/address_space.rs:470-493 | every owned frame and the root return to the pool exactly once, in order |
| Machines.Machine.RangeIsAccessible | kernel/src/mm/address_space.rs:408-432 | the page loop answers for every address of the range |
| Machines.Machine.Perform | kernel/src/mm/address_space.rs:89-494 | any one operation leaves a space it does not name untouched |
| Machines.Machine.Run | kernel/src/mm/address_space.rs:89-494 | over any sequence of operations a space that is not named keeps every mapping, byte and kernel entry |
| ElfLoader.FlagsAreExclusive | kernel/src/loader.rs:67-91 | with NX neither a segment nor the stack is writable and executable |
| ElfLoader.MapRange | kernel/src/loader.rs:263-273 | a run of pages is mapped, or the first page an earlier segment has is reported |
| ElfLoader.ProtectRange | kernel/src/loader.rs:294-298 | a run of pages gets its final permissions, no byte changes |
| ElfLoader.PlaceSegment | kernel/src/loader.rs:241-298 | a segment's pages were free, hold its file bytes and zeros, and have its permissions; nothing else in the space changes |
| ElfLoader.LoadedNext | kernel/src/loader.rs:184-309 | one more segment keeps the description of everything loaded so far, and shares no page with it |
| ElfLoader.LoadSegments | kernel/src/loader.rs:184-309 | after the loop the mapped pages are exactly those of the non-empty loadable segments; a refused segment is at fault or shares a page |
| ElfLoader.PlaceStack | kernel/src/loader.rs:312-329 | sixteen zeroed pages that were free |
| ElfLoader.LoadImage | kernel/src/loader.rs:163-337 | on success the space is exactly segments and stack with the right bytes and flags; on an error it is gone; no other space sees either |
| ElfLoader.FillSpace | kernel/src/loader.rs:184-329 | the segments and then the stack; an error names a segment at fault or sharing a page, frames running out, a segment past user space or in the stack, or an end that is not canonical |
| ElfLoader.LoadedIsExclusive | kernel/src/loader.rs:67-91 | with NX no page of a loaded program is writable and executable |
| ElfPrinter.HeaderIsPrinted | kernel/src/loader.rs:391-444 | a file is accepted with a header exactly when it starts with those 64 bytes, field by field, and its program header table fits |
| ElfPrinter.SegmentIsPrinted | kernel/src/loader.rs:184-195 | a program header is read as a segment exactly when its 56 bytes are that segment's, field by field |
| ElfPrinter.SegmentRights | kernel/src/loader.rs:67-91 | every page of a loaded segment is writable exactly if bit 1 of its `p_flags` is set, and barred from executing exactly if there is NX and bit 0 is not; bit 2 is set, and never both others |
| ElfPrinter.StackRights | kernel/src/loader.rs:312-329 | a stack page is writable and, with NX, not executable |
| ElfPrinter.SegmentRefused | kernel/src/loader.rs:196-239 | exactly which segments are turned away, in the terms of the header's fields |
| ElfPrinter.ProgramAccess | kernel/src/loader.rs:163-337 | by the kernel's own check a loaded program can reach exactly its stack and its segments, and write exactly the stack and the writable ones |
| ElfPrinter.ProgramExecutes | kernel/src/loader.rs:163-337 | with NX a loaded program can execute exactly the pages of its executable segments, along the whole walk |
| ElfPrinter.OpenPageAccess | kernel/src/mm/address_space.rs:434-466 | where the tables above are open a page's own entry decides what the check says |
| Framebuffers.ByteOfPixel | kernel/src/graphics/framebuffer.rs:139-147 | pixels never share a byte |
| Framebuffers.GreyLevels | kernel/src/graphics/framebuffer.rs:139-200 | on a grey screen greys keep their level, nothing is brighter than white, and red, green and blue have their weights |
| Framebuffers.PaintedThen | kernel/src/graphics/framebuffer.rs:203-222 | drawing twice shows the second picture over the first |
| Framebuffers.ReadBack | kernel/src/graphics/compositor.rs:820-853 | on a true-colour screen `read_pixel` returns what was drawn, and what was there elsewhere |
| Framebuffers.Framebuffer.SetPixel | kernel/src/graphics/framebuffer.rs:139-200 | exactly the written channels of one pixel, in the hardware's order; nothing off the screen or the mapping |
| Framebuffers.Framebuffer.FillRect | kernel/src/graphics/framebuffer.rs:203-211 | exactly the rectangle, clipped |
| Framebuffers.Framebuffer.StrokeRect | kernel/src/graphics/framebuffer.rs:214-222 | exactly its one-pixel outline |
| Tiling.DwindlePartitions | kernel/src/graphics/compositor.rs:395-431 | every point of the tiled area is in exactly one tile with its gap, and no other point is in any |
| Tiling.TwoWindows | kernel/src/graphics/compositor.rs:395-431 | two windows share the area half and half, side by side where it is wide, one above the other where it is high |
| Tiling.ThreeWindows | kernel/src/graphics/compositor.rs:395-431 | of three on a wide screen the first has the left half, the second the top of the right, the third the rest |
| Tiling.DwindlePositive | kernel/src/graphics/compositor.rs:395-431 | every window has a positive size exactly when the longer side at the last split, gap included, is at least 14 |
| Tiling.EnoughRoom | kernel/src/graphics/compositor.rs:395-431 | (w+6)(h+6) >= 196 x 2^(n-2) is enough for that |
| Tiling.DwindleApart | kernel/src/graphics/compositor.rs:395-431 | any two windows are at least the gap apart |
| Tiling.TilingGeometry | kernel/src/graphics/compositor.rs:363-437 | with room every tile is positive, inside the inset area and apart from every other |
| Compositors.ArrangedWell | kernel/src/graphics/compositor.rs:363-437 | the same for the surfaces `relayout` placed: positive, inside the content region, six pixels apart, and no subtraction underflows |
| Compositors.SplitStep | kernel/src/graphics/compositor.rs:404-431 | one turn of the loop is one split of the reference |
| Compositors.FocusedRealmIsTheOwner | kernel/src/graphics/compositor.rs:691-694 | the Realm looked up is that of the one surface with the focused id |
| Compositors.WithoutIsExact | kernel/src/graphics/compositor.rs:560-572 | exactly the process's surfaces go |
| Compositors.CreatedWhere | kernel/src/graphics/compositor.rs:278-346 | a window that fits keeps its size and its cascade place, 30 right and 26 down from the one before; a larger one is cut, one too far is moved to the edge; a full screen is the content region |
| Compositors.FocusGoesToNewest | kernel/src/graphics/compositor.rs:560-572 | when the focus has to move it moves to the newest surface left |
| Compositors.Compositor.Relayout | kernel/src/graphics/compositor.rs:363-437 | floating: nothing moves; tiling: the k-th window gets the k-th tile of the reference, and it underflows exactly when the last split is under 12 |
| Compositors.Compositor.TileAll | kernel/src/graphics/compositor.rs:389-436 | the loop against the reference, buffers kept at width x height |
| Compositors.Compositor.SetLayout | kernel/src/graphics/compositor.rs:440-448 | the mode and the arrangement that goes with it |
| Compositors.Compositor.CreateSurface | kernel/src/graphics/compositor.rs:278-346 | refused exactly on the stated sizes; otherwise a fresh id, the focus, its Realm in the bar, a place inside the content region |
| Compositors.Compositor.CommitSurface | kernel/src/graphics/compositor.rs:531-553 | only the owner, only exactly its size, only that surface; every refusal of a known surface counted |
| Compositors.Compositor.RemoveSurfacesFor | kernel/src/graphics/compositor.rs:560-572 | the others stay in order; the focus moves only if it was on one that went |
| Compositors.Compositor.Present | kernel/src/graphics/compositor.rs:622-699 | the screen afterwards is the picture of the state, strip on top |
| TrustBar.SurfaceStaysOut | kernel/src/graphics/compositor.rs:645-686 | no surface, wherever it claims to be and in any mode, draws in the top 20 rows |
| TrustBar.BarIsTheStrip | kernel/src/graphics/compositor.rs:729-760 | the bar covers the whole strip and nothing else |
| TrustBar.FrameSplits | kernel/src/graphics/compositor.rs:622-699 | the strip shows the bar, the rest shows pointer over content |
| TrustBar.StripNonInterference | kernel/src/graphics/compositor.rs:622-760 | two frames of the same theme, focused Realm and signature leave the same bytes in the strip, whatever surfaces, pointer and screen were |
| TrustBar.UnlitBytesStay | kernel/src/graphics/framebuffer.rs:139-200 | padding bytes and bytes outside the screen are never written |
| TrustBar.StripShowsTheBar | kernel/src/graphics/compositor.rs:820-853 | what `read_pixel` finds in the strip is the bar |
| TrustBar.LabelsTellRealmsApart | kernel/src/graphics/compositor.rs:762-769 | two kinds share a label exactly when they are the same Realm, and only a Vault is called verified |
| TrustBar.LetterShows | kernel/src/graphics/compositor.rs:772-785 | letter k starts 6k columns in and shows its glyph upright |
| TrustBar.PixelColours | kernel/src/graphics/compositor.rs:650-672 | a surface's pixel is red, green, blue from the high byte down, row after row |
| TrustBar.SurfaceShows | kernel/src/graphics/compositor.rs:645-686 | a window inside the content region shows its pixels within a one-pixel border of its Realm's colour, a full screen only its pixels |
| TrustBar.NewestShows | kernel/src/graphics/compositor.rs:636-696 | where surfaces overlap the newest shows, and the desktop where there is none |
| TrustBar.AccentsOfRealms | kernel/src/graphics/theme.rs:90-97 | each Realm has its own colour of the theme |
| TrustBar.SwatchShowsRealm | kernel/src/graphics/compositor.rs:729-760 | on a screen wide enough the swatch shows the colour of the focused Realm |
| TrustBar.DrawText | kernel/src/graphics/compositor.rs:772-785 | exactly the dots of the glyphs |
| TrustBar.DrawSignature | kernel/src/graphics/compositor.rs:751-759 | exactly the colour blocks |
| TrustBar.DrawTrustBar | kernel/src/graphics/compositor.rs:729-760 | exactly the bar |
| TrustBar.DrawPointer | kernel/src/graphics/compositor.rs:701-722 | exactly the wedge |
| TrustBar.DrawPixels | kernel/src/graphics/compositor.rs:650-672 | exactly the part of the surface in the content region; the buffer is never indexed outside |
| TrustBar.DrawSurface | kernel/src/graphics/compositor.rs:645-686 | pixels, and the border over them |
| TrustBar.DrawFrame | kernel/src/graphics/compositor.rs:636-696 | desktop, surfaces oldest first, pointer, bar |
| Ipc.ReachableIsGood | kernel/src/ipc.rs:161-283 | in every reachable state names are unique and valid, queues hold at most 32 messages of at most 4096 bytes, ports number at most 128 |
| Ipc.StepKeepsGood | kernel/src/ipc.rs:161-283 | no operation breaks any of that |
| Ipc.ExactlyOnceInOrder | kernel/src/ipc.rs:216-256 | over every interleaving, what the owner received followed by what waits is what was accepted, in order and with the true senders; nothing else is ever delivered, even after the port is gone |
| Ipc.HandlesAreNeverReused | kernel/src/ipc.rs:161-189 | no two creations answer with the same handle |
| Ipc.ClosedForGood | kernel/src/ipc.rs:259-283 | a port that is gone accepts and delivers nothing more, for ever |
| Ipc.OwnerIsCreator | kernel/src/ipc.rs:161-189 | a live port's owner and name are those of its creation |
| Ipc.ReceiverIsCreator | kernel/src/ipc.rs:241-256 | only the process that created a port ever receives from it, and only afterwards |
| Ipc.OnlyItsOwnerEndsIt | kernel/src/ipc.rs:259-283 | a port goes exactly when its owner closes it or is cleaned up after; anybody else's close answers `BadHandle` and changes nothing |
| Ipc.LivesUntilItsCreatorEndsIt | kernel/src/ipc.rs:259-283 | in every run a port is alive exactly until its creator closes it or exits |
| Ipc.SendIsAnswered | kernel/src/ipc.rs:216-238 | each answer to a send, exactly, by what was accepted and delivered before |
| Ipc.ReceiveIsAnswered | kernel/src/ipc.rs:241-256 | each answer to a receive, exactly: the next accepted message, to the creator of a live port only |
| Ipc.CreateIsAnswered | kernel/src/ipc.rs:161-189 | each answer to a creation, exactly |
| Ipc.ConnectIsAnswered | kernel/src/ipc.rs:199-213 | the handle of the one live port of that name, if there is one |
| Ipc.RefusalsAreCounted | kernel/src/ipc.rs:216-238 | in every run a port's count of dropped messages is the number of sends it refused for being full |
| Ipc.PortTable.CreatePort | kernel/src/ipc.rs:161-189 | one more event of a run, with the exact order of refusals |
| Ipc.PortTable.FindName | kernel/src/ipc.rs:199-213 | a port of that name, if and only if there is one |
| Ipc.PortTable.ConnectTo | kernel/src/ipc.rs:199-213 | one more event: the handle of the name |
| Ipc.PortTable.SendTo | kernel/src/ipc.rs:216-238 | one more event: queued with the caller as sender, or refused and counted |
| Ipc.PortTable.Receive | kernel/src/ipc.rs:241-256 | one more event: the oldest message, to the owner only |
| Ipc.PortTable.ClosePort | kernel/src/ipc.rs:259-272 | one more event: by the owner only |
| Ipc.PortTable.CloseAll | kernel/src/ipc.rs:279-283 | one more event: every port of the process |
| RelocationTable.TableIsExact | kernel/src/mirage/pe.rs:365-428 | the walk succeeds with a list exactly when the bytes are a sequence of blocks with a tail under eight bytes, all entries supported and within the limit, and the list is the DIR64 targets in file order |
| RelocationTable.WalkTableIsExact | kernel/src/mirage/pe.rs:385-425 | every table of blocks is walked entry by entry in file order |
| RelocationTable.SplitTableIsTable | kernel/src/mirage/pe.rs:385-398 | where the block sizes are possible the bytes are such a table; where not, the walk fails |
| RelocationTable.TakeEntriesIsExact | kernel/src/mirage/pe.rs:400-422 | entries are taken exactly when all are padding or DIR64 and none follows the limit |
| RelocationTable.PrintedTargets | kernel/src/mirage/pe.rs:385-425 | up to 65,536 targets, each printed as a block byte by byte, are read back in order |
| RelocationTable.ParseRelocations | kernel/src/mirage/pe.rs:365-428 | the loop, which ends, returns what the walk defines |
| RelocationTable.ParseBlock | kernel/src/mirage/pe.rs:400-422 | the entries of one block |
| Relocations.RelocatedTarget | kernel/src/mirage.rs:285-334 | each target word grows by the difference modulo 2^64, when no two targets share a byte |
| Relocations.RelocateElsewhere | kernel/src/mirage.rs:285-334 | no byte outside the targets changes |
| Relocations.OrderIndependent | kernel/src/mirage.rs:285-334 | lists of the same targets in any order leave the same memory |
| Relocations.RelocateUndone | kernel/src/mirage.rs:285-334 | the negated difference in reverse order restores every byte, overlapping targets included |
| Relocations.RelocateUndoneInOrder | kernel/src/mirage.rs:285-334 | for targets that share no byte the negated difference in file order restores memory as well |
| Relocations.PointersFollow | kernel/src/mirage.rs:277-284 | a word that pointed into the image at its preferred base points to the same place at its actual base |
| Relocations.CrossingIsTwoPages | kernel/src/mirage.rs:296-330 | a word is refused as straddling exactly when its first and last bytes are in different pages |
| Relocations.AppliedIsExact | kernel/src/mirage.rs:285-334 | with a difference to add, relocation succeeds exactly when every target is mapped and lies in one page |
| Relocations.MoveWord | kernel/src/mirage.rs:296-330 | one word read through its frame, moved and written back |
| Relocations.ApplyRelocations | kernel/src/mirage.rs:285-334 | the space becomes the relocated one, no mapping moves, no other space sees it; each error names a target that is unmapped or straddles a page |
| Descriptors.OpenIsLeastFree | kernel/src/process.rs:377-403 | the least free descriptor at or above 3 |
| Descriptors.OthersUndisturbed | kernel/src/process.rs:377-436 | no call changes any other descriptor, of this process or another |
| Descriptors.FailureChangesNothing | kernel/src/syscall.rs:317-354 | a call that fails changes nothing; a failed copy leaves the cursor |
| Descriptors.ApplyKeepsGood | kernel/src/syscall.rs:317-395 | cursors never pass the end of their files, and 0 to 2 are never taken |
| Descriptors.ReadsJoinUp | kernel/src/syscall.rs:317-354 | whatever else happens, the reads of one descriptor join up to the file's bytes between the cursors |
| Descriptors.ReadToTheEnd | kernel/src/syscall.rs:317-354 | reading until nothing comes gives the whole rest of the file |
| Descriptors.EmptyReadIsTheEnd | kernel/src/fs.rs:269-305 | a read for at least one byte is empty exactly at the end |
| Descriptors.ReadGives | kernel/src/syscall.rs:317-354 | how many bytes a read gives: what was asked for, up to a mebibyte and the end of the file; 0 is the empty console, 1 and 2 cannot be read |
| Descriptors.SeekLands | kernel/src/syscall.rs:371-395 | from position q in n bytes: min(k, n), min(q + k, n) or n - min(k, n) is answered and stored, and nothing else changes |
| Descriptors.ReadsAfterSeek | kernel/src/syscall.rs:371-395 | after a seek to k the reads join up to the file's bytes from k, whatever else happens |
| Descriptors.CloseFrees | kernel/src/syscall.rs:357-368 | a closed slot is free; a second close, a read and a seek are refused |
| Descriptors.OpenStartsAtZero | kernel/src/process.rs:377-403 | an opened descriptor names the file from its start |
| Descriptors.PackNames | kernel/src/syscall.rs:465-477 | whole names only, as many as fit |
| Descriptors.ListingUnpacks | kernel/src/syscall.rs:439-446 | splitting the buffer at the NULs gives back the names |
| Descriptors.Processes.OpenAt | kernel/src/process.rs:377-403 | the table and descriptor of the model |
| Descriptors.Processes.GetFile | kernel/src/process.rs:406-408 | the open file, if any |
| Descriptors.Processes.SetFilePosition | kernel/src/process.rs:411-420 | only that cursor, only if open |
| Descriptors.Processes.SysRead | kernel/src/syscall.rs:317-354 | the table and bytes of the model: the cursor moves only after the copy |
| Descriptors.Processes.SysSeek | kernel/src/syscall.rs:371-395 | the clamped position of the model |
| Descriptors.Processes.SysReaddir | kernel/src/syscall.rs:447-482 | the descriptor, directory and buffer errors, or as many whole names of the listing as fit |
| Descriptors.Processes.SysClose | kernel/src/syscall.rs:357-368 | the slot is free, or the double close is reported |
| Calendar.ClosedFormIsNaive | kernel/src/drivers/rtc.rs:95-117 | for every valid date from 1970-01-01, which is 0, the closed form is the count of days by the 4/100/400 rule times 86400 plus the time |
| Calendar.NextDayAddsADay | kernel/src/drivers/rtc.rs:95-117 | the next civil day is exactly 86400 seconds later |
| Calendar.SameSeconds | kernel/src/drivers/rtc.rs:95-117 | two dates and times, leap seconds included, have the same value exactly when they are equal or one is a leap second and the other the second after it |
| Calendar.OrderIsExact | kernel/src/drivers/rtc.rs:95-117 | seconds order dates and times exactly as calendar and clock face do, that pair excepted |
| Calendar.LeapSecondCollides | kernel/src/drivers/rtc.rs:77-117 | second 60, which is accepted as plausible, has the value of the start of the next minute, through hour, day and year |
| Calendar.PastTheMonth | kernel/src/drivers/rtc.rs:77-117 | a plausible day past the end of its month has the value of the corresponding day of the next month |
| Calendar.PlausibleCollisions | kernel/src/drivers/rtc.rs:77-117 | of all plausible clock readings, exactly which have the same value |

## Left out

- Assembly and hardware: `context_switch`, trampolines, descriptor tables, interrupt controllers, port reads. A switch changes which task is current; a timer interrupt is one step, with one `preempt`.
- The clock read of `spawn` happens just before interrupts are disabled; the model makes the two one step.
- `sched::task::start`, which nothing calls, and the saving of user-mode state across a switch.
- SchedDonations.ThreeInFive: ticks the Realtime class gives up by yielding, exiting or changing class, or loses because it arrives in the middle of one, are allowed for and not bounded; they are its own doing.
- Scheduler.Scheduler.StartRunning: `run_until_idle` enables interrupts for a moment between making a task current and switching stacks. A tick there is a later step of the model; that the stack switched to was chosen before it is not modelled, since stack pointers are not.
- Internals of `OffsetPageTable`, the heap and the locks: replaced by a four-level walk over bytes and by atomic steps.
- Machines.Machine.MapPage: flags are taken to include PRESENT, as every caller's do; huge pages are not created, as in the source.
- Machines.Machine.Install: the same, being the second half of `map_page`.
- Machines.Machine.ProtectPage: flags are taken to include PRESENT, as every caller's do.
- MapPages.UpdateFlags: the same.
- Machines.Machine.WriteAt: addresses are those of the lower half, where every caller stays; `write_at` into the kernel half is not modelled.
- Machines.Machine.ZeroAt: the same.
- Machines.Machine.NewSpace: later changes to the kernel's own top-level entries are not modelled; the source does not propagate them either.
- ElfLoader.LoadImage: error texts are dropped, all reasons for refusing a segment being one `BadSegment`; a segment whose end is not a canonical address makes the source panic, which is the outcome `Panicked`. That a mapping error means the frames ran out, or a segment past user space or in the stack, is claimed of `FillSpace`, before the space is dropped and its frames are back; of `LoadImage` only that no other space is touched and the space is gone.
- MapPages.MapTo: flags include PRESENT, as in `MapPage`; a leaf frame that cannot be mapped is lost, as in the source, so exact conservation is claimed on success only.
- ArchiveBuilder.BuildArchive: the order in which a `BTreeMap` yields paths is left open, so the results hold for every order; paths are bytes, UTF-8 is not modelled.
- ArchiveBuilder.RoundTrip: archives with fewer than 2^32 entries and 2^64 bytes, the widths of the fields that store those numbers.
- StorePackage.Verify: the manifest's text parser is a parameter, which also stands for the check that the manifest is UTF-8, so the two errors are one; signatures, capabilities and Realm placement are left out.
- Descriptors.PackNames: the copy loop of `sys_readdir` alone; its checks and its copy to the caller are in `SysReaddir`.
- StorePackage.WritePackage: messages under 2^61 bytes, as the standard's length field requires, and a non-empty archive, which every archive is.
- Tamper detection, which rests on collision resistance.
- Compositors.Compositor.Relayout: where a subtraction would underflow the model stops and says so; what an unchecked build would compute is not modelled.
- Compositors.Compositor.CommitSurface: the copy straight from user memory, which can stop halfway through the process's own surface, is not modelled.
- Framebuffers.ReadBack: the geometry is that of a real screen, rows not overlapping; reads outside the mapping are not modelled.
- The glyph table and theme files: a font is any function and a theme any colours.
- Ipc.HandlesAreNeverReused: the 64-bit handle counter is unbounded here.
- Descriptors.Processes.SysRead: whether the caller's buffer is writable is a parameter; `sys_open`'s path and rights checks come before `OpenAt` and are left out.
- RelocationTable.ParseRelocations: a target past 2^32 makes the source panic in a checked build, which is the error `Overflow`; imports, sections and the rest of the PE headers are left out.
- Relocations.ApplyRelocations: the image base is any lower-half address with room for 32-bit offsets; the source uses one constant.
- Input events, capabilities, Realms, PCI, serial, self-tests, userland programs and the boot image writer: short or tabular.
- Reading the clock chip.
