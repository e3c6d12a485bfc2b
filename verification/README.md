# Verified models of the dragonboard HALs and the db820c partition fix-up

A Dafny 4.11 model of four stateful parts of the repository, with proofs about every input, every
interleaving or every disk size. `dafny verify dfyconfig.toml` checks the whole project.

- **Touch boost** (`power/power_dragonboard.c`). `TouchBoost` is the protocol as a state machine: any number
  of hint callers, the de-boost thread and the clock, one step per shared access or blocking call.
  `TouchBoostSafety` and `TouchBoostProgress` prove what every run keeps and that boosts end. `PowerModule`
  has the module object with its fields updated in place and ties its critical sections to the protocol;
  `PowerTurns` shows that its loop over a schedule is a run of the protocol.
- **Graphics buffers** (`gralloc/gralloc_gbm.cpp`, `gralloc/gralloc.cpp`). `GbmFormats` holds the tables and
  the geometry, `GbmLocks` and `GbmLockRuns` the lock record and the automaton behind it, `GbmRegistry` and
  `GbmRegistryProofs` the handle map with the null entries that lookups insert, `GbmHistory` what the calls made
  with a handle say of it, `GbmAnswers` what the calls answer, `GbmModule` the objects, and `GrallocThreads` and
  `GrallocCalls` the mutex layer.
- **Audio output** (`audio/audio_hw.c`). `AudioOut` is the two-mutex state machine of `out_write`,
  `out_standby` and `out_set_parameters` with the kernel ring; `AudioOutProofs`, `AudioOutResults`,
  `AudioProgress`, `AudioRouting` and `AudioAtomicity` prove it safe, deadlock-free and conserving, and what
  routing and `active_output` do; `AudioPosition` is the mixed-width arithmetic of the presentation position;
  `AudioStream` has the device and stream objects.
- **Partition tables** (`installer/db820c/patch.xml`, `installer/db820c/rawprogram.xml`). `GptPatch` interprets
  patch rows on byte images with CRC32 as an arbitrary function, `GptProgram` lists the rows, `GptValid` proves
  the tables valid under sections 5.3.2 and 5.3.3 of the UEFI Specification, `GptFlash` proves that patching
  and flashing commute, `GptEntries` says when the installed partitions lie in the usable range without
  overlap, and `GptInstaller` does the work in place on buffers.

What libraries do is a parameter of each step: `pcm_open` and `pcm_mmap_write` succeed or fail (a failed write
transfers nothing), a map gives a non-null address and non-null data or fails, a bo made is one never made
before, a handle allocated is not that of a live buffer, `nanosleep` may return early except where full sleep is
assumed, the clock never runs back, sysfs writes succeed, and `now + boost time` is positive and does not
overflow. Initial GPT headers hold the fields that no row sets (`Prepared`, `PreparedFiles`).

The main results:

- `TouchBoostSafety.InvRun`, `NoLostWakeUp`, `AtMostOneRedundantReset`, `TraceShape` and `BoostCoverage`, and
  `TouchBoostProgress.SleepsBoundedByHints`, `BoostEndsOnceHintsStop` and `BoostEndsOnTime`: the protocol loses no
  wake-up, wastes at most one reset, never cuts a boost short, and ends it on time.
- `GbmLocks.LockRefines`, `GbmLockRuns.BalancedRunRestores` and `MappingsAreConserved`, `GbmRegistryProofs`
  (`RunKeepsLedger`, `RunRefinesPlainMap`, `BufferSeesOnlyItsOwnCalls`), `GbmHistory` (`HistoryTellsBinding`,
  `RunConservesIffNoCreateOnStrayed`), `GbmAnswers.RunAnswersAutomaton`, `GrallocThreads.InterleavingIsSequential`
  and `GrallocCalls.ThreadsDoTheirCalls`: the lock automaton, its conservation laws, exactly which runs leak, and
  that shared use of the registry by any number of threads amounts to each buffer seeing its own calls.
- `AudioOutProofs.InvStep`, `AudioOutResults.NoDeadlock`, `FramesAreConserved`, `SampleIsHeardUpToWritesInFlight`
  and `PositionDecreasesIffHeardWraps`, `AudioProgress.CallsReturn`, and `AudioAtomicity.CallsAreAtomic`: every
  call returns and acts as if alone, no frame is lost, and exactly when the reported position can be trusted.
- `GptFlash.FlashingCommutesWithPatching` and `EveryLunInstallsValidTables`, and
  `GptEntries.EveryLunInstallsSoundEntries`, for every disk size.
- The methods of `PowerModule`, `GbmModule`, `AudioStream` and `GptInstaller` do the same work in place; each is
  proved equal to the specification the results are about, and their rows close the table.

Where the code does not do what one would expect, the model follows the code and the exact condition is
proved:

- A lookup of an unbound handle leaves a null entry. On such a key `register` is refused and `create` hands
  out a handle whose bo is leaked (`RefinesPlainMap`, `CreateConservesIffFreshKey`, `RegisterRefusedIff`,
  `UnregisterThenFreeLeaksNextBuffer`).
- Unlocking a bound buffer that no lock has got past the usage check of reads through a null record
  (`UnlockFaultsIffNeverLocked`).
- The lock code looks like nested locking but makes CPU locks exclusive (`CpuLockIsExclusive`).
- The position query takes no lock. While a write is in flight a 32-bit build can report about 2^32 frames, and
  a query whose two reads straddle a write runs ahead (`RacingSampleIsSaneIffHeardCoversFlight`,
  `FirstWriteFoolsThe32BitQuery`, `StraddlingQueryRunsAhead`).
- HAL format RGB_888 is handed to the library as a format with red and blue the other way round
  (`LayoutsAgreeIffNotRgb888`).
- `written` has 32 bits and is never reset, so after 2^32 frames the position goes back to 0, in either width
  (`PositionDecreasesIffHeardWraps`, `WrapMakesPositionDrop`).
- A planar lock maps the rows and columns of the Y plane it asks for and half as many rows again, which holds its
  chroma bytes only if it locks the whole of a bo of even height (`PlanarLockCoversIffWholeAndEven`).
- A planar buffer locked away from column 0 is only logged, not refused, and may be mapped past its end; a
  planar buffer of odd width can get too small a stride (`PlanarOffsetMayOverrun`, `StrideIsSound`).
- In row 14 of `patch.xml` the start sector is written without the trailing dot of the other rows; it is read
  as the same number. In LUNs 3, 4 and 5 the row for the last partition addresses an entry of the array whose
  name in the row is `last_parti`; where such an entry is unused, what bounds the disk is the end of the used
  ones (`SoundIffDiskReaches`).

## Model

| member | source | states |
|---|---|---|
| `TouchBoostSafety.InvStep` | power/power_dragonboard.c:93-135 | every step of every thread keeps mutual exclusion, the time bounds on the deadline, the token count and the shape of the write trace |
| `TouchBoostSafety.SurplusStep` | power/power_dragonboard.c:97-113 | wake-ups available minus resets owed drops by one at a reset with no boost pending, and changes at no other step |
| `TouchBoostSafety.InvRun` | power/power_dragonboard.c:93-135 | over any interleaving from a consistent state that surplus stays 0 or 1 and never grows |
| `TouchBoostSafety.NoLostWakeUp` | power/power_dragonboard.c:128-131 | in every reachable state an owed reset has a wake-up posted or in hand; the semaphore never exceeds 2, and is 2 only while a reset is owed |
| `TouchBoostSafety.SurplusPaysForRedundantResets` | power/power_dragonboard.c:111-112 | surplus at the end plus redundant resets on the way equals surplus at the start |
| `TouchBoostSafety.AtMostOneRedundantReset` | power/power_dragonboard.c:145-146 | the initial token pays for at most one redundant reset in a whole run |
| `TouchBoostSafety.TraceShape` | power/power_dragonboard.c:104-132 | deleting at most one "normal" write leaves interactive, normal, interactive, ...; with the mutex free the sysfs value is interactive iff a deadline is set |
| `TouchBoostSafety.SysfsIsLastWrite` | power/power_dragonboard.c:77-91 | the sysfs value is the last value written, and writes are only appended |
| `TouchBoostSafety.MutualExclusion` | power/power_dragonboard.c:102-113 | while a caller is inside the mutex, neither the de-boost thread nor another caller is |
| `TouchBoostSafety.BoostCoverage` | power/power_dragonboard.c:127-132 | after a hint sampled at t stores its deadline, the value is interactive in every later state before t + boost time, early wake-ups included |
| `TouchBoostSafety.OtherHintsNeverBoost` | power/power_dragonboard.c:183-195 | a run without an interaction hint never sets a deadline, never writes the interactive value and posts no wake-up |
| `TouchBoostProgress.SleepsBoundedByHints` | power/power_dragonboard.c:99-109 | if nanosleep sleeps in full, the inner loop has slept at most once per hint stored in the current episode |
| `TouchBoostProgress.DeboostStepsAreBounded` | power/power_dragonboard.c:99-115 | within an inner loop the de-boost thread takes at most its rank (at most 14) plus 6 steps per stored deadline |
| `TouchBoostProgress.BoostEndsOnceHintsStop` | power/power_dragonboard.c:99-115 | with no further deadline stored, the awake thread is back at the semaphore after at most its rank in steps, and whenever it is back the deadline is cleared and the normal value in place |
| `TouchBoostProgress.BoostEndsOnTime` | power/power_dragonboard.c:97-132 | however a run goes on after a hint stored its deadline, once the clock has reached sample plus boost time with no other deadline stored, the boost is over or the thread, its token taken, ends it within nine steps |
| `TouchBoostProgress.SleepsUntilDeadline` | power/power_dragonboard.c:102-107 | the thread sleeps until the deadline it read, later only by the time between reading the clock and falling asleep |
| `TouchBoostProgress.CallersLeave` | power/power_dragonboard.c:182-197 | a caller that holds the mutex can always move and is out within five steps |
| `TouchBoostProgress.OwedResetIsNeverStuck` | power/power_dragonboard.c:97-115 | while a reset is owed the next step of the de-boost thread is enabled, once its sleep is over, unless a caller holds the mutex |
| `TouchBoostProgress.BackAtSemaphore` | power/power_dragonboard.c:98-98 | waiting with the mutex free, the value is normal or a token is waiting, and it is normal iff no deadline is set |
| `PowerModule.HintIsAtomic` | power/power_dragonboard.c:120-135 | the fine-grained steps of one hint, run alone, amount to one atomic update of deadline, semaphore and sysfs value |
| `PowerModule.CheckIsAtomic` | power/power_dragonboard.c:102-114 | likewise for one check of the deadline, with the time to sleep or the reset |
| `PowerModule.HintAndCheckMeet` | power/power_dragonboard.c:103-132 | a hint keeps a boost running until exactly its reading plus the boost time and posts a wake-up iff none was running; a check sleeps until just when the boost is due or ends it |
| `PowerModule.InnerLoopEnds` | power/power_dragonboard.c:99-115 | the inner loop with full sleeps sleeps only for turns that brought hints, and ends reset if it ends early |
| `PowerTurns.TurnsAreARun` | power/power_dragonboard.c:97-132 | every schedule of hints and checks with a clock that never runs back is a run of the interleaved protocol, with the final state and the sleeps the inner loop computes |
| `PowerModule.Timespec` | power/power_dragonboard.c:69-75 | seconds and nanoseconds make up the time to sleep, the latter below 10^9 |
| `GbmFormats.AllocMatchesImport` | gralloc/gralloc_gbm.cpp:156-239 | alloc and import ask for the same dimensions and format for every handle and usage, since the cursor flag is never set |
| `GbmFormats.BindFollowsBits` | gralloc/gralloc_gbm.cpp:138-154 | flags of a usage are those of its bits one by one; software bits alone neither render nor scan out |
| `GbmFormats.BitGivesFlags` | gralloc/gralloc_gbm.cpp:138-154 | which single usage bit asks for which flag |
| `GbmFormats.LayoutsAgreeIffNotRgb888` | gralloc/gralloc_gbm.cpp:73-136 | the library format has the pixel layout of every packed format but RGB_888, whose red and blue change places; pixel sizes are those of the layouts |
| `GbmFormats.OnlyYv12IsAcceptedBesides` | gralloc/gralloc_gbm.cpp:73-136 | the only other format accepted is YV12, one byte a pixel of Y in library pixels of two whole bytes |
| `GbmFormats.PlanarLockCoversIffWholeAndEven` | gralloc/gralloc_gbm.cpp:273-283 | what a planar lock maps holds every byte of the locked pixels in all three planes iff the rectangle is the whole bo, stride included, of even height |
| `GbmFormats.PackedExtentIsLeast` | gralloc/gralloc_gbm.cpp:260-283 | outside planar formats the extent asked for holds every locked pixel, and no extent from the origin that does is smaller |
| `GbmFormats.PlanarLumaIsMappedIff` | gralloc/gralloc_gbm.cpp:273-283 | a planar lock anywhere maps all Y bytes it locks iff its width is even or it does not start at column 0 |
| `GbmFormats.ExtentMovesAndFills` | gralloc/gralloc_gbm.cpp:205-221 | moving a lock moves its extent, and locking all of a buffer maps all of its bo |
| `GbmFormats.LockedRectangleFits` | gralloc/gralloc_gbm.cpp:273-283 | any in-bounds rectangle, starting at column 0 if planar, maps inside the bo |
| `GbmFormats.PlanarOffsetMayOverrun` | gralloc/gralloc_gbm.cpp:273-283 | for a planar buffer every in-bounds rectangle at column x maps inside the bo iff x is 0, or x is 1 and the width is even |
| `GbmFormats.PlanarBufferIsExact` | gralloc/gralloc_gbm.cpp:214-221 | for even stride the YV12 bo holds exactly the Y plane and two half planes iff the height is even (or the stride 0) |
| `GbmFormats.StrideIsSound` | gralloc/gralloc_gbm.cpp:73-136 | accepted formats have non-zero pixel size; the reported stride is the byte stride in whole library pixels where packed, claims no byte too many, and covers the width iff the buffer is not planar of odd width |
| `GbmLocks.LockRefines` | gralloc/gralloc_gbm.cpp:417-446 | lock refines the automaton Unlocked / CpuLocked / SharedHw: same status and next mode, nothing changed on refusal, a mapping iff the usage has software bits |
| `GbmLocks.UnlockRefines` | gralloc/gralloc_gbm.cpp:459-474 | unlock refines the automaton, unmapping exactly in CpuLocked and never a null pointer |
| `GbmLocks.CpuLockIsExclusive` | gralloc/gralloc_gbm.cpp:426-437 | a CPU-locked buffer has lock count 1 and refuses every further lock unchanged |
| `GbmLocks.PermittedIff` | gralloc/gralloc_gbm.cpp:405-415 | every lock passes the usage check iff the buffer has a software-read-often, framebuffer or texture bit; otherwise exactly the usages within its own pass |
| `GbmLocks.MappingMatchesUsage` | gralloc/gralloc_gbm.cpp:260-291 | the library is asked to map exactly when an unlocked buffer is locked with a software bit, for writing iff that lock has a software write bit; a mapping exists iff asked for and granted |
| `GbmLockRuns.ExecKeepsWellFormed` | gralloc/gralloc_gbm.cpp:394-475 | in every reachable state map data is set iff the count is at least 1 and a software bit is held, and then the count is 1 |
| `GbmLockRuns.BalancedRunRestores` | gralloc/gralloc_gbm.cpp:394-475 | any balanced run, refused locks included, restores the lock record exactly |
| `GbmLockRuns.MappingsAreConserved` | gralloc/gralloc_gbm.cpp:270-298 | the mappings made are, in order, those given back followed by the one outstanding; none given back is null |
| `GbmLockRuns.MapsMinusUnmaps` | gralloc/gralloc_gbm.cpp:270-298 | successful maps minus unmaps is 0 or 1 and says whether map data is set |
| `GbmLockRuns.EpochUsage` | gralloc/gralloc_gbm.cpp:426-472 | while a buffer stays locked, locked_for is the usage of the first lock of the epoch |
| `GbmRegistryProofs.LookupIsPlain` | gralloc/gralloc_gbm.cpp:255-258 | a lookup answers like a plain map, leaves the live part alone, and adds a null key for an unknown handle |
| `GbmRegistryProofs.RefinesPlainMap` | gralloc/gralloc_gbm.cpp:241-258 | every operation acts on the live part like a plain map iff it does not register or create on a stale key; register succeeds exactly as on a plain map otherwise |
| `GbmRegistryProofs.StaleGrows` | gralloc/gralloc_gbm.cpp:243-257 | stale keys are never removed, never live, and an operation adds at most its own unbound handle |
| `GbmRegistryProofs.OpKeepsConserved` | gralloc/gralloc_gbm.cpp:334-382 | each operation keeps: distinct handles distinct bos, no bo destroyed twice or reachable after, made minus destroyed equals live handles plus leaked bos, where exactly a create on a key already there leaks |
| `GbmRegistryProofs.CreateConservesIffFreshKey` | gralloc/gralloc_gbm.cpp:366-389 | create keeps that iff its handle is no key of the map; on a null key the new bo is leaked |
| `GbmHistory.UnregisterThenFreeLeaksNextBuffer` | gralloc/gralloc_gbm.cpp:241-250 | creating, unregistering and freeing a buffer and reusing its address is a run that leaks the second bo |
| `GbmHistory.RunConservesIffNoCreateOnStrayed` | gralloc/gralloc_gbm.cpp:241-389 | a run conserves iff it creates no buffer on a handle once freed, locked or unlocked while unbound |
| `GbmRegistryProofs.OtherHandlesUntouched` | gralloc/gralloc_gbm.cpp:255-258 | an operation on one handle leaves binding and lock record of every other live handle as they were, whatever has leaked before |
| `GbmRegistryProofs.RunKeepsSeparate` | gralloc/gralloc_gbm.cpp:241-389 | over any run distinct live handles have distinct bos that exist |
| `GbmHistory.HistoryTellsBinding` | gralloc/gralloc_gbm.cpp:241-389 | over any run the calls made with a handle, by themselves, say whether it is live, stale or neither |
| `GbmHistory.StaleIffStrayCall` | gralloc/gralloc_gbm.cpp:241-258 | a key is stale after a run iff it was before, or some free, lock or unlock of it came while it was not bound |
| `GbmHistory.RegisterRefusedIff` | gralloc/gralloc_gbm.cpp:334-351 | after any run, registering an importable buffer is refused iff its handle is bound or was once freed, locked or unlocked while unbound |
| `GbmHistory.StrayUnlockBlocksRegister` | gralloc/gralloc_gbm.cpp:257-257 | one unlock of an unknown handle has every later registration of it refused, though it is bound to nothing |
| `GbmHistory.UnlockFaultsIffNeverLocked` | gralloc/gralloc_gbm.cpp:394-462 | after any run, unlock reads through a null record iff the handle is bound and no lock of it has passed the usage check since |
| `GbmHistory.UnlockAfterCreateFaults` | gralloc/gralloc_gbm.cpp:452-462 | creating a buffer and unlocking it is such a run |
| `GbmRegistryProofs.RunKeepsLedger` | gralloc/gralloc_gbm.cpp:241-389 | over any run every bo made is destroyed once, reachable from one live handle, or one of those leaked by creates on keys already there; stale keys only grow |
| `GbmRegistryProofs.RunConservesIffNothingLeaked` | gralloc/gralloc_gbm.cpp:241-389 | after any run made minus destroyed equals live plus leaked, and the registry is conserved iff nothing was leaked |
| `GbmRegistryProofs.RunRefinesPlainMap` | gralloc/gralloc_gbm.cpp:241-389 | the live map after a run is that of the same run on a plain map, unless an operation met a stale key |
| `GbmRegistryProofs.OpKeepsRecords` | gralloc/gralloc_gbm.cpp:394-475 | every lock record in the registry is one the automaton describes |
| `GbmRegistryProofs.RunKeepsRecords` | gralloc/gralloc_gbm.cpp:394-475 | so in every reachable registry every buffer is mapped exactly while the CPU holds it, alone |
| `GbmRegistryProofs.BufferSeesOnlyItsOwnCalls` | gralloc/gralloc_gbm.cpp:394-475 | in any run over a shared registry, leaks included, the record of a bound buffer is what its own locks and unlocks alone would give |
| `GbmRegistryProofs.BalancedCallsRestoreBuffer` | gralloc/gralloc_gbm.cpp:394-475 | so balanced calls on one buffer restore its record whatever happens to the others |
| `GbmAnswers.CreateAnswers` | gralloc/gralloc_gbm.cpp:366-389 | a create answers with its handle iff the library made a bo, and that handle is bound to it iff it was not stale |
| `GbmAnswers.LockSucceedsIffCounted` | gralloc/gralloc_gbm.cpp:394-447 | a lock reports success iff the buffer is live and its count has gone up by one |
| `GbmAnswers.LockAnswersAutomaton` | gralloc/gralloc_gbm.cpp:394-447 | a lock of a live buffer that passes the usage check answers as the automaton; any other is refused without a trace |
| `GbmAnswers.UnlockAnswersAutomaton` | gralloc/gralloc_gbm.cpp:452-475 | an unlock of a buffer with a record succeeds and follows the automaton, giving back exactly the mapping of a CPU lock |
| `GbmAnswers.RunAnswersAutomaton` | gralloc/gralloc_gbm.cpp:394-475 | in any run over a shared registry every lock of a live buffer is answered as the automaton answers that buffer alone |
| `GrallocThreads.SectionAlone` | gralloc/gralloc.cpp:106-108 | a section that meets a free mutex publishes its effect and hands over to the next section of its call or ends it |
| `GrallocThreads.RegisterAlone` | gralloc/gralloc.cpp:96-111 | a register call alone fails without a device and otherwise registers in a second hold of the mutex |
| `GrallocCalls.UnlockAlone` | gralloc/gralloc.cpp:141-151 | an unlock call alone does and answers what unlock does to the registry |
| `GrallocCalls.LockAlone` | gralloc/gralloc.cpp:126-139 | likewise lock |
| `GrallocCalls.UnregisterAlone` | gralloc/gralloc.cpp:113-124 | an unregister call alone frees |
| `GrallocCalls.FreeAlone` | gralloc/gralloc.cpp:164-175 | a free call alone frees |
| `GrallocCalls.AllocAlone` | gralloc/gralloc.cpp:177-193 | an alloc call alone creates, and fails iff no handle came back |
| `GrallocCalls.OpenAlone` | gralloc/gralloc.cpp:92-115 | an open call alone keeps or makes the device, and opens the allocator iff there is one |
| `GrallocCalls.PerformAlone` | gralloc/gralloc.cpp:67-94 | a perform call alone keeps or makes the device and opens nothing |
| `GrallocCalls.ThreadsDoTheirCalls` | gralloc/gralloc.cpp:52-193 | in every interleaving the sections a thread has published are, in order, the registry operations and device checks of the calls it started |
| `GrallocThreads.InterleavingIsSequential` | gralloc/gralloc.cpp:96-193 | every interleaving leaves the state, and returned the results, of its critical sections run one by one in mutex order |
| `GrallocThreads.DeviceIsThereWhenNeeded` | gralloc/gralloc.cpp:52-65 | the device is created at most once in any interleaving, and every create or import finds it |
| `GrallocThreads.ThreadsConserveRegistry` | gralloc/gralloc.cpp:96-193 | under every interleaving every buffer keeps to the lock automaton, live handles stay separate, every bo is accounted for, and the registry is conserved iff no create leaked |
| `AudioOutProofs.InvStep` | audio/audio_hw.c:90-281 | every step of every thread keeps lock ownership, the stream state machine and frame conservation |
| `AudioOutResults.WritesGoToAnOpenPcm` | audio/audio_hw.c:255-268 | a stream inside pcm_mmap_write is open, not in standby, and nobody else is in a section of it |
| `AudioOutResults.IdleThreadsOwnNothing` | audio/audio_hw.c:174-281 | every lock is released on every path |
| `AudioOutResults.NoDeadlock` | audio/audio_hw.c:174-273 | from any thread inside a call, following who waits for whom at most twice leads to an enabled step |
| `AudioProgress.CallsReturn` | audio/audio_hw.c:174-281 | in any interleaving a thread takes at most as many steps as its rank before it is outside again |
| `AudioProgress.ActiveIsRunning` | audio/audio_hw.c:107-168 | whenever the device mutex is free active_output is empty or names a running stream |
| `AudioProgress.ActiveForgetsRunningStream` | audio/audio_hw.c:107-114 | it can be empty while a stream is running: another stream failed to open |
| `AudioRouting.ActiveIsLastOpened` | audio/audio_hw.c:107-168 | in any interleaving active_output names the stream opened last, until an open fails or a running stream is put in standby |
| `AudioRouting.GoodOpenStarts` | audio/audio_hw.c:90-116 | a successful open leaves the pcm open, names the stream active, and the write goes on to it |
| `AudioRouting.FailedOpenIsFinal` | audio/audio_hw.c:106-112 | after a failed open the stream stays unavailable and in standby for ever, its closed pcm still pointed to |
| `AudioRouting.LibraryIsFree` | audio/audio_hw.c:255-271 | any outcome of an open, a failure before the first frame, and any transfer that fits are possible steps |
| `AudioRouting.RerouteReplacesOutputs` | audio/audio_hw.c:207-214 | a zero route changes nothing; any other is put in place of the output bits and no other bit is touched |
| `AudioRouting.DevicesFollowLastRoute` | audio/audio_hw.c:207-214 | in any interleaving the output bits are those of the last non-zero route |
| `AudioOutResults.UnavailableForEver` | audio/audio_hw.c:94-112 | once unavailable, a stream stays so and in standby, and written never changes |
| `AudioOutResults.FramesAreConserved` | audio/audio_hw.c:161-170 | written plus in flight equals heard (played or dropped) plus queued, and written is the true count modulo 2^32 |
| `AudioOutResults.SampleIsHeardUpToWritesInFlight` | audio/audio_hw.c:291-310 | for any interleaving between its two reads and any number of wraps of written: no result without a pcm, otherwise what the query returns in either width, its shortfall and when it runs ahead |
| `AudioOutResults.QuietSampleIsHeard` | audio/audio_hw.c:291-310 | with no write in flight the query of an open pcm returns the frames heard modulo 2^32 and without a pcm fails; the 64-bit one succeeds, and the 32-bit one stays at or below written, iff no multiple of 2^32 lies between heard and written |
| `AudioOutResults.PositionDecreasesIffHeardWraps` | audio/audio_hw.c:291-310 | of two quiet samples less than 2^32 heard frames apart the later is at least the earlier iff the frames heard passed no multiple of 2^32; below 2^32 frames written it never decreases and never exceeds written |
| `AudioOutResults.WrapMakesPositionDrop` | audio/audio_hw.c:268-304 | a reachable run of 2^32 frames in which the quiet position falls from 4294965248 to 0, the 64-bit query failing in between |
| `AudioOutResults.RacingSampleIsSaneIffHeardCoversFlight` | audio/audio_hw.c:297-306 | exactly when an instantaneous query of an open pcm is right in 32 bits, succeeds in 64, or exceeds written; below 2^32 frames it goes wrong iff the write in flight outnumbers the frames heard |
| `AudioOutResults.FirstWriteFoolsThe32BitQuery` | audio/audio_hw.c:300-304 | a reachable state in which the 32-bit query reports 4294967295 frames and the 64-bit one fails |
| `AudioOutResults.StraddlingQueryRunsAhead` | audio/audio_hw.c:297-306 | a reachable run in which a query that straddles a write reports frames nobody has heard |
| `AudioAtomicity.CallsAreAtomic` | audio/audio_hw.c:161-273 | when a thread is about to release a stream, the stream is what its call alone would have made of what it found |
| `AudioPosition.Position64IsExact` | audio/audio_hw.c:300-304 | with 64-bit size_t the int64 is written minus queued, and the call fails iff that is negative |
| `AudioPosition.Position32IsModular` | audio/audio_hw.c:300-304 | with 32-bit size_t it is that value modulo 2^32, exact iff queued <= written |
| `AudioPosition.WidthsAgreeIffNothingBorrowed` | audio/audio_hw.c:300-304 | the two widths agree iff queued <= written |
| `AudioPosition.QuerySucceedsIff` | audio/audio_hw.c:291-310 | the query succeeds iff there is a pcm, its timestamp can be read and, in 64 bits, no more is queued than written |
| `AudioStream.SleepIsPlayingTime` | audio/audio_hw.c:276-279 | a failed write sleeps as long as its frames would have played, to the microsecond below |
| `GptProgram.LunsAreOk` | installer/db820c/patch.xml:1-156 | in all six LUNs the patched field is the ending LBA of the entry the rows name, inside the CRC-covered array of all entries |
| `GptProgram.ProgramSplits` | installer/db820c/patch.xml:1-26 | the disk rows and the file rows of the mixed list, in order |
| `GptFlash.DiskPatchesMirrorFilePatches` | installer/db820c/patch.xml:1-26 | the disk rows are the file rows moved to where the files are flashed, in the same order |
| `GptFlash.MixedProgramSeparates` | installer/db820c/patch.xml:1-26 | file rows and disk rows of any list do not affect each other |
| `GptFlash.FlashingCommutesWithPatching` | installer/db820c/rawprogram.xml:5-6 | patching the files and flashing them equals flashing them unpatched and patching the disk, for every disk of at least 11 sectors |
| `GptFlash.ProgramKeepsDiskInStep` | installer/db820c/patch.xml:1-26 | the whole mixed list on flashed files leaves the disk equal to the flashed patched files |
| `GptFlash.PatchedFilesFlashValidTables` | installer/db820c/rawprogram.xml:5-6 | either way of installing ends in valid primary and backup tables, fixed fields, disk identity and equal arrays included |
| `GptFlash.EveryLunInstallsValidTables` | installer/db820c/patch.xml:1-156 | for each of the six LUNs the whole mixed list on the flashed files ends in valid tables, in step with the patched files |
| `GptEntries.SoundIffDiskReaches` | installer/db820c/patch.xml:1-4 | with the last end set to n - 6, the used entries lie in the usable range and do not overlap iff the disk reaches 6 blocks past the last start, or past every used end where the last entry is unused |
| `GptEntries.EveryLunInstallsSoundEntries` | installer/db820c/patch.xml:1-156 | so for each LUN both installed partition arrays are sound iff the disk reaches that far |
| `GptFlash.PreparedFilesExist` | installer/db820c/rawprogram.xml:5-6 | image files that meet the preconditions exist for every LUN shape, disk and partition array |
| `GptValid.ArrayCrcField` | installer/db820c/patch.xml:15-18 | each array CRC is that of the final partition array |
| `GptValid.HeaderCrcField` | installer/db820c/patch.xml:19-26 | each header CRC is that of the final header with its CRC field zeroed |
| `GptValid.RestOfDiskUntouched` | installer/db820c/patch.xml:1-26 | nothing outside the two headers and arrays changes |
| `GptValid.ArrayAfter` | installer/db820c/patch.xml:1-4 | each array is as before except that the last partition ends at n - 6 |
| `GptValid.PatchedTablesAreValid` | installer/db820c/patch.xml:1-26 | the disk rows in file order leave valid primary and backup headers naming each other and the same disk, equal arrays, and a last partition ending at n - 6 |
| `GptValid.LastPartitionIsProperIffDiskReachesIt` | installer/db820c/patch.xml:2-6 | the last partition is a proper range iff the disk reaches 6 blocks past its start; the usable range is non-empty iff n >= 12 |
| `PowerModule.DragonboardPower.constructor` | power/power_dragonboard.c:137-174 | the initialiser leaves the initial state of the protocol |
| `PowerModule.DragonboardPower.SysfsBoost` | power/power_dragonboard.c:77-91 | writes the value, or returns the bad descriptor and writes nothing |
| `PowerModule.DragonboardPower.SchedtuneBoost` | power/power_dragonboard.c:120-135 | with a valid descriptor has the atomic effect of a hint, otherwise none |
| `PowerModule.DragonboardPower.PowerHint` | power/power_dragonboard.c:176-198 | an interaction hint has that effect, any other hint none; the mutex is released |
| `PowerModule.DragonboardPower.CheckDeadline` | power/power_dragonboard.c:100-114 | one pass of the inner loop has the atomic effect of a check |
| `PowerModule.DragonboardPower.DeboostUntilReset` | power/power_dragonboard.c:99-115 | the loop computes the specified final state and sequence of sleeps for any schedule of hints and clock readings |
| `GbmModule.BoData.Map` | gralloc/gralloc_gbm.cpp:260-291 | refuses an already mapped buffer; otherwise asks the library for the halved planar or the plain extent with the access wanted, and stores the map data or reports failure |
| `GbmModule.BoData.Unmap` | gralloc/gralloc_gbm.cpp:293-299 | gives the map data back and clears it |
| `GbmModule.BoData.Lock` | gralloc/gralloc_gbm.cpp:417-446 | the in-place update of the record is the specified one, and so is the extent and access asked of the library |
| `GbmModule.BoData.Unlock` | gralloc/gralloc_gbm.cpp:459-474 | likewise for unlock, with the pointer given back |
| `GbmModule.GrallocModule.BoFromHandle` | gralloc/gralloc_gbm.cpp:255-258 | the lookup with its inserted null entry |
| `GbmModule.GrallocModule.GbmFree` | gralloc/gralloc_gbm.cpp:241-250 | the specified free |
| `GbmModule.GrallocModule.HandleRegister` | gralloc/gralloc_gbm.cpp:334-351 | the specified register |
| `GbmModule.GrallocModule.BoCreate` | gralloc/gralloc_gbm.cpp:366-389 | the specified create, and the pixel stride |
| `GbmModule.GrallocModule.Admits` | gralloc/gralloc_gbm.cpp:405-415 | the nested usage check of a lock computes the permission of the specification |
| `GbmModule.GrallocModule.BoLock` | gralloc/gralloc_gbm.cpp:394-447 | the specified lock and map request; the record objects of different bos never alias |
| `GbmModule.GrallocModule.BoUnlock` | gralloc/gralloc_gbm.cpp:452-475 | the specified unlock, with the map data given back to the library |
| `GbmModule.GrallocModule.GbmInit` | gralloc/gralloc.cpp:52-65 | creates the device only if there is none, and reports whether there is one |
| `GbmModule.GrallocModule.ModRegisterBuffer` | gralloc/gralloc.cpp:96-111 | keeps an existing device or takes the one made; without either fails and changes nothing, otherwise registers |
| `GbmModule.GrallocModule.ModUnregisterBuffer` | gralloc/gralloc.cpp:113-124 | frees and reports success |
| `GbmModule.GrallocModule.ModLock` | gralloc/gralloc.cpp:126-139 | the specified lock and map request, mutex released |
| `GbmModule.GrallocModule.ModUnlock` | gralloc/gralloc.cpp:141-151 | the specified unlock, with the map data given back, mutex released |
| `GbmModule.GrallocModule.ModAlloc` | gralloc/gralloc.cpp:177-193 | the specified create with its status, handle and stride, mutex released |
| `GbmModule.GrallocModule.ModFree` | gralloc/gralloc.cpp:164-175 | the specified free, mutex released |
| `AudioStream.OutputStream.constructor` | audio/audio_hw.c:480-482 | a new stream is in standby and available |
| `AudioStream.OutputStream.StartOutputStream` | audio/audio_hw.c:90-116 | the three outcomes: already unavailable, opened, failed and unavailable from now on |
| `AudioStream.OutputStream.DoOutputStandby` | audio/audio_hw.c:161-172 | closes and forgets the pcm unless already in standby |
| `AudioStream.OutputStream.OutStandby` | audio/audio_hw.c:174-186 | likewise under both mutexes, released again; active_output cleared unless already in standby |
| `AudioStream.OutputStream.OutSetParameters` | audio/audio_hw.c:194-220 | replaces the output routing unless zero or unchanged; the stream is untouched |
| `AudioStream.OutputStream.OutWrite` | audio/audio_hw.c:242-281 | the atomic effect of a write on stream, thresholds and active_output; all bytes always reported written, failures slept out |
| `AudioStream.OutputStream.GetPresentationPosition` | audio/audio_hw.c:291-310 | the query that the sampling results are about: the position, or failure without a pcm or a timestamp |
| `GptInstaller.WriteNumber` | installer/db820c/patch.xml:1-26 | the in-place little-endian write is the specified one |
| `GptInstaller.WriteBlock` | installer/db820c/rawprogram.xml:5-6 | the in-place copy of an image is the specified one |
| `GptInstaller.LunImages.PatchOne` | installer/db820c/patch.xml:1-1 | one row on its target buffer |
| `GptInstaller.LunImages.RunPatches` | installer/db820c/patch.xml:1-26 | the loop over the rows is the specified program |
| `GptInstaller.LunImages.FlashTables` | installer/db820c/rawprogram.xml:5-6 | primary table at sector 0, backup in the last five sectors |
| `GptInstaller.LunImages.Install` | installer/db820c/patch.xml:1-26 | flash, then patch: the disk ends with valid tables and in step with the files |

## Left out

- libgbm, Mesa, tinyalsa, pthread, clock and sysfs internals: contracts only, as said above.
- The values of the gralloc usage masks: their header is not part of this model; masks are parameters, and a usage word is the set of its one bits.
- The pixel layouts behind the format names: their headers are not part of this model; `HalLayout` and `GbmLayout` read them off the naming conventions of Android and of the library.
- Machine-integer overflow of `lock_count`, of buffer dimensions, and of clock readings in nanoseconds: those are unbounded numbers here; the widths are modelled where they matter, in the presentation position.
- Teardown that leaves dangling state: `gbm_mod_close_gpu0`, `adev_close_output_stream`, `adev_close`.
- Freeing a buffer while it is locked drops its lock record with the mapping still made; the results on mappings are about runs without a free.
- Position queries that read a pcm which is closed but still pointed to, while `pcm_close` is under way or after a failed `pcm_open`, and queries whose timestamp read fails in an interleaving: the sampling results exclude them by `pcm != Closed` and assume a timestamp.
- GptValid.PatchedTablesAreValid: disks of fewer than 2^64 sectors, the range of the 8-byte LBA fields; the protective MBR is not examined.
- GptEntries.EveryLunInstallsSoundEntries: uniqueness of partition GUIDs, attributes and names are not examined.
- GbmFormats.PlanarLockCoversIffWholeAndEven: the chroma planes are taken to have half the byte stride, with no alignment of their own; how far beyond the extent asked for a library maps is not modelled.
- PowerModule.DragonboardPower.DeboostUntilReset: the outer loop of the thread never ends, so the method is its inner loop over a finite schedule; unbounded runs are the subject of the protocol modules.
- PowerModule.DragonboardPower.CheckDeadline: with a valid descriptor only, since the thread is started only then.
- The init function's property reads and the parsing of the initial boost value; hints that arrive before it has finished.
- Native-handle allocation and file-descriptor lifetime, the modifier passed to import, logging, and the `drm_fd` query of `gbm_mod_perform` beyond its device check.
- String parsing of routing parameters, constant getters and setters, the stub input stream, effects and the memory tracker: nothing to prove.
- The partition images other than the two GPT files, the binary contents of those files, the CRC32 polynomial, and the `gpt_both` images used by the fastboot scripts.
- Build files, init scripts, security policy, manifests and key layouts.
