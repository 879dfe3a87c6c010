# Topomalloc: verified core protocols

A Dafny model of the parts of Topomalloc whose correctness is not visible in any single
function: backing providers and what they may do to memory, live heap sampling under
concurrency, fork registration and the fork gate, the global-allocator adapter, seed
derivation, request decoding and size classes, sized frees, label-scoped statistics, hook
adapters, and topology parsing. `dafny verify dfyconfig.toml` checks everything.

How the pieces fit:

- `Words`, `Pages`, `Vecs`, `Wrappers` hold the vocabulary: 64-bit words as naturals below
  2^64, page and alignment arithmetic, vectors with `swap_remove`, options and results.
- `Backend`, `Simulator`, `SimThreads`, `Posix`, `PosixRuns`, `PosixProvider`, `PosixThreads`,
  `Refinement`, `Agreement` and `TypedSeam` are the backing providers. `Posix` says what each operation does
  to an address space of pages; `PosixProvider` is the provider itself, proved to do that;
  `PosixRuns` proves what holds over every sequential run; `PosixThreads` is the same provider
  as interleaved thread steps around its lock, and `SimThreads` is that for the simulator.
  `Refinement` and `Agreement` give each provider's answer to every command by handles alone,
  and relate both to one abstract provider keyed by handles.
- `SampledTable` and `Sampling` are the sampled-object set and the sampling hooks around
  allocate, free and realloc.
- `Atfork`, `ForkGate` and `GlobalAdapter` are registration, the gate it guards, and the
  `GlobalAlloc` adapter with its bootstrap windows.
- `Seeds`, `Flags`, `SizeClasses`, `SizedFree`, `StatsView`, `Hooks` and `Topology` are the rest.

Conventions. What the kernel, the host allocator or the engine answers is a parameter of the
operation that asks, so every statement is for all answers. A system call takes effect as a
whole or not at all. Addresses are reused freely. Concurrent code is a state machine with one
step per atomic action; `Run` relates a start state, a list of steps of any threads, and the
state reached, and theorems quantify over all of them.

Eight things the design hopes for are not so, and each is settled by a counterexample and an
exact condition:

- Removing a sampled record from a full table never returns, and `on_alloc_restore` can fill
  the table: possible exactly when there are more threads than an eighth of the capacity
  (`Sampling.FewThreadsNeverFillTheTable`, `Sampling.ManyThreadsFillTheTable`).
- A truthful sized-free hint is rejected for a guarded allocation, and for one that `realloc`
  moved to guarded storage, unless the tight length is also the class size or whole pages
  (`SizedFree.FreshHintAcceptedExactly`, `SizedFree.ReallocHintAcceptedExactly`,
  `SizedFree.GuardedMoveCanFail`). With guard sampling on, any request may be guarded.
- After a successful `topo_xallocx` it is rejected too in some cases: a large block shrunk in
  place to a small size keeps whole pages, and a slab slot keeps its class.
  `SizedFree.XallocxHintSafeExactly` says which calls are safe whatever the backing answers
  (`SizedFree.XallocxHintCanFail`).
- The two providers do not answer every command alike: `Agreement.ProvidersAgree` says exactly
  when they do. They part on a stale region whose base was handed out again in both or in one,
  on a stale release, and on an unaligned offset (`Agreement.StaleRegionDisagreement`,
  `Agreement.OneSidedReuseDisagreement`, `Agreement.StaleReleaseDisagreement`,
  `Agreement.UnalignedOffsetDisagreement`).
- The simulator's default `protect` and `bind_node` accept what POSIX refuses
  (`Agreement.ProtectAndBindAgreeExactly`).
- The simulator's `decommit` zeroes memory another owner may have by then: exactly when a
  release overtakes it (`SimThreads.StepIsSafeExactly`).
- An engine pointer freed inside a bootstrap window goes to the system allocator
  (`GlobalAdapter.TopoMallocGlobal.Dealloc`, `GlobalAdapter.InWindowFreeOfEnginePointer`).
- Two alike states give a low observer the same result only if their snapshot epochs agree;
  the epoch is shared by all callers (`StatsView.LowViewIsAFunctionOfLowState`).

Where comment and code disagree the code is followed: the comment on the fast path of
`global` says a call racing a registration attempt returns at once, but it waits, as
`await_attempt` does.

## Model

| member | source | states |
|---|---|---|
| Backend.ProviderStateMachine.Advance | crates/topo-core/src/backend.rs:290-300 | a lifecycle step is taken exactly when it is the one legal successor; a refused step leaves the state |
| Backend.RecycledOnlyAfterUnmapThenRevoke | crates/topo-core/src/backend.rs:224-250 | from any start and under any attempts, a resource recycled after being mapped was unmapped and then revoked in between, and never mapped again |
| Backend.RecyclableIsTerminal | crates/topo-core/src/backend.rs:224-250 | only the recyclable state has no legal successor |
| Simulator.PoolIsConserved | crates/topo-backend-sele4n/src/lib.rs:142-240 | in every run, whatever regions are named, remaining pool plus live charges is the total and every live frame is committed |
| Simulator.DoKeepsInv | crates/topo-backend-sele4n/src/lib.rs:142-240 | each operation keeps frames disjoint and accounted for; a rejected one changes nothing |
| Simulator.ReserveThenRelease | crates/topo-backend-sele4n/src/lib.rs:208-240 | releasing a fresh reservation succeeds and restores pool and frames |
| Simulator.Walk | crates/topo-backend-sele4n/src/lib.rs:126-139 | walking a legal chain never meets an illegal transition and ends at its last state |
| Simulator.ChainsAreLegal | crates/topo-backend-sele4n/src/lib.rs:224-235 | every step of the reservation chain and of the release tail is the legal successor |
| Simulator.MintAndMap | crates/topo-backend-sele4n/src/lib.rs:126-139 | a fresh frame reaches the committed state |
| Simulator.Sele4nSim.constructor | crates/topo-backend-sele4n/src/lib.rs:58-66 | a new simulator has its whole pool free and no frames |
| Simulator.Sele4nSim.CheckedSubrange | crates/topo-backend-sele4n/src/lib.rs:90-117 | a subrange is resolved exactly when a live frame has the region's base and length and the range lies inside |
| Simulator.Sele4nSim.Reserve | crates/topo-backend-sele4n/src/lib.rs:142-168 | reserve charges the pool, pushes a committed frame, and keeps the balance; errors as the source orders them |
| Simulator.Sele4nSim.Commit | crates/topo-backend-sele4n/src/lib.rs:170-190 | commit and lazy purge accept exactly owned subranges and change nothing |
| Simulator.Sele4nSim.Decommit | crates/topo-backend-sele4n/src/lib.rs:177-198 | decommit and forced purge zero exactly the subrange, or reject and change nothing |
| Simulator.Sele4nSim.Release | crates/topo-backend-sele4n/src/lib.rs:208-240 | release walks the whole tail, returns the charge and removes the first frame at the base |
| SimThreads.StepIsSafeExactly | crates/topo-backend-sele4n/src/lib.rs:90-117 | a step of any thread leaves every checked and not yet performed zeroing inside a live frame exactly when it does not release that frame |
| SimThreads.ZeroingIsOwned | crates/topo-backend-sele4n/src/lib.rs:177-198 | over every interleaving in which no release overtakes a discard, each zeroing stays inside the frame it was checked against |
| SimThreads.OvertakenDecommitZeroesAnother | crates/topo-backend-sele4n/src/lib.rs:177-183 | a run in which a decommit zeroes a byte the base's next owner had stored |
| Pages.AlignUpIsLeast | crates/topo-core/src/overflow.rs:37-41 | rounding up gives the least multiple at or above the value |
| Pages.SpanInside | crates/topo-backend-posix/src/lib.rs:180-208 | the page-rounded span of a subrange stays inside its page-multiple reservation |
| PosixRuns.TrimGeometry | crates/topo-backend-posix/src/lib.rs:476-499 | for every power-of-two alignment above the page, front and tail slack are whole pages, the tail is never empty, and what is left is aligned and exactly the rounded size |
| PosixRuns.PlanIsEnough | crates/topo-backend-posix/src/lib.rs:438-480 | an accepted size is rounded to whole pages by less than one page, without wrapping, and over-mapped by the alignment only above the page |
| PosixRuns.ReserveMapsExactlyOneRange | crates/topo-backend-posix/src/lib.rs:452-500 | with the trims succeeding, reserve maps one new range that starts on the alignment and covers the size by less than a page; every other page and byte is as before |
| PosixRuns.MappedIsOwned | crates/topo-backend-posix/src/lib.rs:212-323 | over every sequential run with unmaps succeeding, the mapped pages are exactly the listed reservations' and other code's |
| PosixRuns.DoKeepsInv | crates/topo-backend-posix/src/lib.rs:212-345 | every operation, failing or not, keeps reservations page-aligned, mapped, pairwise disjoint and clear of other code's pages |
| PosixRuns.SubrangeIsOwned | crates/topo-backend-posix/src/lib.rs:180-208 | every page an accepted call spans belongs to one live reservation with the region's base |
| PosixRuns.ProviderSparesOthers | crates/topo-backend-posix/src/lib.rs:180-208 | whatever region is passed, forged or stale, no provider call changes access or contents of a page the provider does not list |
| PosixRuns.PhysicalIsLocal | crates/topo-backend-posix/src/lib.rs:234-310 | a physical-state operation changes no page outside the span it names |
| PosixRuns.UnwrittenReadsZero | crates/topo-backend-posix/src/lib.rs:368-371 | in every run a byte not stored to since its page was mapped or last discarded reads zero |
| PosixRuns.RetiredStaysInaccessible | crates/topo-backend-posix/src/lib.rs:555-576 | in guard mode a decommitted page stays inaccessible until a commit or accessible protect covers it |
| PosixRuns.OpenAndCloseTakeEffect | crates/topo-backend-posix/src/lib.rs:507-548 | in guard mode an accepted commit or protect leaves its pages accessible or not, as asked |
| PosixProvider.PosixBackingProvider.constructor | crates/topo-backend-posix/src/lib.rs:84-116 | a new provider lists nothing; all mapped pages are other code's |
| PosixProvider.PosixBackingProvider.SysReserve | crates/topo-backend-posix/src/lib.rs:452-500 | maps and trims as specified, or fails leaving no trace |
| PosixProvider.PosixBackingProvider.OverMap | crates/topo-backend-posix/src/lib.rs:484-499 | over-maps and unmaps front and tail, returning the aligned base |
| PosixProvider.PosixBackingProvider.Reserve | crates/topo-backend-posix/src/lib.rs:212-232 | pushes exactly one reservation on success and keeps the invariant |
| PosixProvider.PosixBackingProvider.FindOwnedSubrange | crates/topo-backend-posix/src/lib.rs:180-208 | finds the subrange's address exactly when some reservation has the base and covers the region, and the subrange lies inside |
| PosixProvider.PosixBackingProvider.Physical | crates/topo-backend-posix/src/lib.rs:234-310 | checks ownership, then makes exactly the call the operation stands for |
| PosixProvider.PosixBackingProvider.Release | crates/topo-backend-posix/src/lib.rs:312-323 | removes the first reservation at the base and unmaps its pages, or rejects and changes nothing |
| PosixProvider.PosixBackingProvider.Drop | crates/topo-backend-posix/src/lib.rs:381-395 | dropping empties the list; with unmaps succeeding only other code's pages stay mapped |
| PosixThreads.ReservationsMappedAndDisjoint | crates/topo-backend-posix/src/lib.rs:212-232 | in every interleaving the listed reservations are mapped and pairwise disjoint |
| PosixThreads.CallsTouchOnlyOwnedPages | crates/topo-backend-posix/src/lib.rs:180-208 | from the check to the system call's return the reservation stays listed and every page of the call is its own, whatever is unmapped, remapped or reused meanwhile |
| PosixThreads.ReleaseUnmapsOnceAndOnlyItsOwn | crates/topo-backend-posix/src/lib.rs:312-323 | in every interleaving each reservation is passed to munmap at most once, never while listed, and only its own pages are |
| PosixThreads.StepInv | crates/topo-backend-posix/src/lib.rs:180-345 | every step of every thread, the kernel's reuse of addresses and other code's mappings included, keeps the invariant |
| Refinement.PosixStep | crates/topo-backend-posix/src/lib.rs:212-323 | for every command on a region it handed out, live or stale, aligned or not, what POSIX answers and what that does to whichever handle has the base is given by handles alone; known-zero bytes stay zero |
| Refinement.OwnedExactly | crates/topo-backend-posix/src/lib.rs:180-208 | a region, live or stale, is accepted exactly when the reservation now at its base covers it by whole pages |
| Refinement.GrantMeansLayout | crates/topo-backend-sele4n/src/lib.rs:142-168 | whatever the kernel can map has a size and alignment the simulator's layout accepts |
| Refinement.LayoutMeansPlan | crates/topo-backend-posix/src/lib.rs:452-480 | whatever layout the simulator accepts, the POSIX rounding accepts without wrapping |
| Agreement.SimStep | crates/topo-backend-sele4n/src/lib.rs:90-240 | the same for the simulator, which takes a physical operation by equal lengths |
| Agreement.ProvidersAgree | crates/topo-core/src/backend.rs:319-392 | after any run, stale and unaligned commands included, the two answer the next command, whatever it names, alike if and only if the stated condition on bases, lengths and alignment holds; discarded bytes read zero in each until written |
| Agreement.UnmistakenExactly | crates/topo-backend-posix/src/lib.rs:180-208 | which commands neither provider mistakes, by handles: if and only if both answer as the handle's own life demands |
| Agreement.FairRunsShareOneAbstract | crates/topo-core/src/backend.rs:319-392 | from empty providers, through any run of such commands, both stay in step with one abstract provider, and answer the next command as it does if and only if it is another such |
| Agreement.ProperRunsShareOneAbstract | crates/topo-core/src/backend.rs:319-392 | in particular over runs of reserves, stores, live handles at page-aligned offsets and stale handles whose bases are free |
| Agreement.LiveAlignedAgree | crates/topo-core/src/backend.rs:319-392 | the condition holds on live handles at aligned offsets and on stale ones whose bases are free |
| Agreement.StaleRegionDisagreement | crates/topo-backend-posix/src/lib.rs:196-204 | a base reused in both for a longer region: POSIX takes the stale decommit, the simulator refuses it |
| Agreement.OneSidedReuseDisagreement | crates/topo-backend-sele4n/src/lib.rs:104-110 | a base reused in POSIX alone: the same, at equal lengths |
| Agreement.StaleReleaseDisagreement | crates/topo-backend-posix/src/lib.rs:312-323 | a stale release takes the new owner's reservation in POSIX and is refused by the simulator |
| Agreement.UnalignedOffsetDisagreement | crates/topo-backend-posix/src/lib.rs:246-265 | an unaligned decommit of a live region fails in POSIX and succeeds in the simulator |
| Agreement.ProtectAndBindAgreeExactly | crates/topo-core/src/backend.rs:378-420 | the default protect agrees with POSIX exactly on regions POSIX owns at aligned offsets, the default bind exactly on regions it owns whole and nodes below 64 |
| TypedSeam.TypedRefinesCollapsed | crates/topo-core/src/backend.rs:455-543 | for any provider, the typed life of a frame succeeds exactly when the collapsed one does and the frame fills the window, and is then the same life |
| TypedSeam.ProvidersServeTheTypedSurface | crates/topo-core/src/backend.rs:455-543 | this holds of the POSIX provider and of the simulator |
| TypedSeam.LifeLeavesNothing | crates/topo-core/src/backend.rs:455-543 | a completed life leaves reservations, pages, access and contents as they were |
| TypedSeam.RefusedMapKeepsWindow | crates/topo-core/src/backend.rs:499-519 | whatever makes the map fail, the window is still owned and releasing it undoes the reservation |
| TypedSeam.SimLifeLeavesNothing | crates/topo-core/src/backend.rs:455-543 | in the simulator a life completes whenever its reservation does, and pool and frames are as before |
| TypedSeam.SimRefusedMapKeepsWindow | crates/topo-core/src/backend.rs:499-519 | in the simulator only a frame of the wrong size is refused; the window stays charged until released |
| TypedSeam.FrameSizeNeverWraps | crates/topo-core/src/backend.rs:477-489 | a frame is the power of two asked for when representable, and always positive and below 2^64 |
| SampledTable.SampledObjects.constructor | crates/topo-core/src/sampling.rs:360-368 | a new table is empty |
| SampledTable.SampledObjects.Probe | crates/topo-core/src/sampling.rs:402-426 | the probe ends on the entry, or on the first empty slot after only other entries |
| SampledTable.SampledObjects.OnAlloc | crates/topo-core/src/sampling.rs:402-426 | records a new address below the load cap and drops it at the cap, acting on the table as on a finite map |
| SampledTable.SampledObjects.OnAllocRestore | crates/topo-core/src/sampling.rs:443-467 | puts a record back up to the full capacity, never overwriting |
| SampledTable.SampledObjects.Find | crates/topo-core/src/sampling.rs:471-491 | the lookup is exact in both directions, full tables included |
| SampledTable.SampledObjects.OnFree | crates/topo-core/src/sampling.rs:471-491 | returns and removes exactly the record of the address |
| SampledTable.SampledObjects.RemoveAt | crates/topo-core/src/sampling.rs:496-520 | backward-shift deletion removes one entry and keeps every other reachable by its probe |
| SampledTable.MoveEntry | crates/topo-core/src/sampling.rs:505-517 | pulling an entry back into the hole keeps every probe chain unbroken |
| SampledTable.RemovalStopsExactlyWhenASlotIsEmpty | crates/topo-core/src/sampling.rs:496-520 | the deletion loop ends if and only if some slot is empty |
| Sampling.SampledRecordsAreExact | crates/topo-abi/src/sampling.rs:276-403 | in every interleaving each record's key is a live address of the very object sampled, known to the filter, and no object is folded twice |
| Sampling.StepsTouchOnlyOwnRecords | crates/topo-abi/src/lib.rs:213-260 | no step changes a record of an object outside its thread's hands, and a lifetime is folded only for an object in hand or a record the thread itself took |
| Sampling.FailedReallocKeepsTheRecord | crates/topo-abi/src/lib.rs:227-260 | a realloc that takes the record and fails, whatever runs in between, leaves the object live and its record back exactly when the table was not full |
| Sampling.RestoreOutcome | crates/topo-abi/src/sampling.rs:391-403 | a restore puts back the taken record at the same incarnation unless the table is full |
| Sampling.FewThreadsNeverFillTheTable | crates/topo-core/src/sampling.rs:428-467 | with at most an eighth of the capacity in threads the table is never full, and with one more no restore finds it full |
| Sampling.ManyThreadsFillTheTable | crates/topo-core/src/sampling.rs:428-467 | one thread more than either bound and some run fills the table, or loses a live object's record |
| Atfork.OneInstaller | crates/topo-abi/src/fork_api.rs:324-335 | in every interleaving at most one thread is between claim and publication, and at most one installation succeeds |
| Atfork.RegisteredIffInstalled | crates/topo-abi/src/fork_api.rs:157-188 | the guard reads done exactly when an installation has succeeded and no attempt is open |
| Atfork.FailureIsReclaimable | crates/topo-abi/src/fork_api.rs:165-188 | with nothing installed and no attempt open the word is idle, so the next claim enters the installer and waiters move on |
| Atfork.WaitersWaitForAnother | crates/topo-abi/src/fork_api.rs:350-357 | nobody waits for itself, re-entered or not: a wait that goes on is for another thread's open attempt, and a thread about to enter the initializer is not the one running it |
| Atfork.ReentrantCallReturns | crates/topo-abi/src/fork_api.rs:258-313 | from inside the installer, an allocation is served by the system allocator and a registration returns without waiting, leaving everything as it was |
| Atfork.NoUnguardedInit | crates/topo-abi/src/lib.rs:819-852 | over runs with re-entry from the installer, no thread is in the initializer unless the handlers are installed or some attempt has failed, and never two at once |
| Atfork.WindowIsNeeded | crates/topo-abi/src/fork_api.rs:270-287 | without the window a run takes the registering thread into the initializer with its attempt open and nothing settled |
| Atfork.FastPathRetries | crates/topo-abi/src/lib.rs:819-836 | once the allocator is built a lost registration is retried by the next call |
| ForkGate.NoOperationAcrossAFork | crates/topo-core/src/fork.rs:379-413 | for any number of shards and threads, when the drain's one-by-one sum reads zero no thread is inside an admitted operation |
| ForkGate.GateReopens | crates/topo-core/src/fork.rs:420-428 | while nobody is forking every shard is open and every parked thread can proceed |
| ForkGate.DrainEnds | crates/topo-core/src/fork.rs:285-316 | parked threads hold up nobody: with no thread counted the next scan quiesces |
| ForkGate.StepInv | crates/topo-core/src/fork.rs:251-367 | every step keeps each shard's count equal to the threads counted there and what the forker has established |
| GlobalAdapter.TopoMallocGlobal.EnterWindow | crates/topo-abi/src/lib.rs:783-789 | entering sets the flag and saves what closing restores |
| GlobalAdapter.TopoMallocGlobal.LeaveWindow | crates/topo-abi/src/lib.rs:791-795 | closing the innermost window leaves the flag set exactly while one is still open |
| GlobalAdapter.TopoMallocGlobal.GetGlobal | crates/topo-abi/src/lib.rs:815-852 | the engine is built at most once and the outcome is remembered |
| GlobalAdapter.TopoMallocGlobal.Alloc | crates/topo-abi/src/lib.rs:987-999 | a window's allocations come from the system and all others from the engine, and the client's pointers are always exactly the live blocks that were not lost |
| GlobalAdapter.TopoMallocGlobal.Dealloc | crates/topo-abi/src/lib.rs:1015-1055 | a pointer goes to the allocator the routing names, which is its own exactly unless it is the engine's and a window is open; it is misused and its block lost exactly then |
| GlobalAdapter.TopoMallocGlobal.Migrate | crates/topo-abi/src/lib.rs:1075-1091 | a system pointer moves to the engine with its prefix, and stays untouched if the engine has no room |
| GlobalAdapter.TopoMallocGlobal.Realloc | crates/topo-abi/src/lib.rs:1057-1092 | the common prefix survives and one pointer replaces the other; a failure leaves the original live and unchanged; a pointer is misused exactly when it is the engine's and a window is open |
| GlobalAdapter.InWindowFreeOfEnginePointer | crates/topo-abi/src/lib.rs:1016-1021 | from a fresh adapter the exception is reached: the system allocator is handed the engine's pointer and the engine keeps a block nobody holds |
| Seeds.XorShiftRoundTrip | crates/topo-core/src/deterministic.rs:104-109 | each xor-shift of the mixer is undone by its inverse |
| Seeds.SplitMix64Bijection | crates/topo-core/src/deterministic.rs:104-109 | the mixer is a bijection on 64-bit words, with an explicit inverse both ways |
| Seeds.DomainSeedsDistinctBySalt | crates/topo-core/src/deterministic.rs:117-133 | a domain seed is never zero, and two salts share one exactly when equal or when their raw mixes are 0 and 1, a pair that is named for every seed |
| Seeds.DomainSeedsDistinctBySeed | crates/topo-core/src/deterministic.rs:117-133 | the same for two seeds and one salt |
| Seeds.ForkSeedsDistinctByPid | crates/topo-abi/src/entropy.rs:97-123 | the post-fork fallback is never zero and injective in the process id up to the named 0/1 pair |
| Seeds.SeedCounter.SetBaseSeed | crates/topo-abi/src/sampling.rs:169-171 | a reset starts a new run of draws |
| Seeds.SeedCounter.NextSeed | crates/topo-abi/src/sampling.rs:115-117 | the k-th draw after a reset is the base advanced k steps, wrapping |
| Seeds.DrawsRepeatWithFullPeriod | crates/topo-abi/src/sampling.rs:115-117 | two draws are equal exactly when their positions agree modulo 2^64 |
| Seeds.DrawsDistinctWithinPeriod | crates/topo-abi/src/sampling.rs:115-117 | any two of at most 2^64 draws between two resets differ |
| Flags.DecodeAcceptsExactly | crates/topo-abi/src/extended.rs:131-178 | a word decodes exactly when reserved bits are clear, the hugepage bits do not conflict and the arena is encodable |
| Flags.DecodeCarriesFields | crates/topo-abi/src/extended.rs:131-178 | decoding keeps the alignment and moves every other field to its internal place |
| Flags.BuildRoundTrip | crates/topo-core/src/flags.rs:166-297 | an internal word gives back the hints and arena it was built from and is always valid |
| Flags.EncodeRoundTrip | crates/topo-abi/src/extended.rs:62-124 | encoding fields and reading them gives them back: no field overlaps another |
| Flags.FieldsRoundTrip | crates/topo-abi/src/extended.rs:62-124 | an acceptable word is the encoding of its fields and carries nothing else |
| Flags.RoundTrip | crates/topo-abi/src/extended.rs:131-178 | decoding an encoded request gives its alignment, hints and arena |
| Flags.DecodeIsInjective | crates/topo-abi/src/extended.rs:131-178 | two words that decode, and decode to the same alignment and internal word, are the same word |
| Flags.AlignConstructorIsExact | crates/topo-abi/src/extended.rs:107-113 | for every 32-bit exponent the constructor decodes to exactly that alignment or is rejected |
| Flags.ArenaConstructorIsExact | crates/topo-abi/src/extended.rs:122-124 | for every 32-bit id the constructor decodes to exactly that arena or is rejected |
| Flags.HotnessConstructorIsExact | crates/topo-abi/src/extended.rs:116-118 | the hotness constructor decodes to exactly that hint |
| SizeClasses.RowsOk | include/topomalloc_tables.h:26-99 | every row's size is a multiple of its alignment, the alignment is the largest such power of two up to a page, and the objects per slab are as many as fit |
| SizeClasses.IndexIsSmallestFit | include/topomalloc_tables.h:101 | for every small size the granule index gives the smallest class large enough |
| SizeClasses.WasteIsUnderOneEighth | include/topomalloc_tables.h:26-101 | above 128 bytes rounding up to a class wastes less than an eighth of the size |
| SizeClasses.AlignWalk | crates/topo-core/src/size_class.rs:113-123 | the walk stops at the first class aligned enough |
| SizeClasses.SizeClassIsSmallest | crates/topo-core/src/size_class.rs:51-95 | the class chosen is the smallest covering size and alignment, and one is found exactly when one exists |
| SizeClasses.SlabObjectsFitAndAlign | crates/topo-core/src/size_class.rs:40-62 | every object of a page-aligned slab lies inside it and meets the class's alignment and the request's |
| SizeClasses.ClassificationCovers | crates/topo-core/src/classify.rs:109-158 | classification fails exactly on a bad alignment, bad flags or an unrepresentable rounding, covers size and alignment, wastes less than a page beyond the small classes, and is Large exactly from the huge threshold |
| SizedFree.AskingForSixteenIsHarmless | crates/topo-abi/src/c_api.rs:75-85 | raising the alignment to 16 changes neither family nor class |
| SizedFree.TruthfulHintAccepted | crates/topo-abi/src/c_api.rs:363-418 | a claim that states the allocation's size and alignment always passes |
| SizedFree.OtherSmallClassRejected | crates/topo-abi/src/c_api.rs:369-373 | a claim naming another small class is always rejected |
| SizedFree.GuardedHintAcceptedExactly | crates/topo-core/src/allocator.rs:1148-1170 | a truthful claim about a guarded allocation passes exactly when its tight length is the class size or whole pages |
| SizedFree.FreshHintAcceptedExactly | crates/topo-core/src/allocator.rs:1148-1170 | a fresh block's own size passes if and only if it is unguarded or its tight length is ordinary |
| SizedFree.FreshHintSafeExactly | crates/topo-core/src/allocator.rs:2818-2827 | which requests pass whatever storage the flag or the sampler gives them, if and only if |
| SizedFree.GuardedHintCanFail | crates/topo-abi/src/c_api.rs:363-390 | 257 guarded bytes are a truthful claim that is rejected |
| SizedFree.SmallGuardedHintAccepted | crates/topo-abi/src/c_api.rs:363-390 | up to 256 bytes a guarded malloc always passes |
| SizedFree.ReallocHintAcceptedExactly | crates/topo-core/src/allocator.rs:3571-3704 | after a realloc of any storage the new size passes if and only if the block was kept in place, moved unguarded, or moved guarded with an ordinary tight length |
| SizedFree.GuardedMoveCanFail | crates/topo-core/src/allocator.rs:3684-3691 | a slot moved to 257 guarded bytes takes 272, and 257 is rejected |
| SizedFree.XallocxHintAcceptedExactly | crates/topo-core/src/allocator.rs:3806-3866 | after an in-place resize of any storage, the backing willing or not, the new size passes if and only if the stated condition holds |
| SizedFree.XallocxHintAcceptedWhateverTheAnswer | crates/topo-core/src/allocator.rs:3723-3790 | it passes whatever the backing answers if and only if it passes should the backing decline |
| SizedFree.XallocxHintSafeExactly | crates/topo-abi/src/extended.rs:351-394 | a resize the caller takes for a success passes whatever the backing answers, if and only if a condition on the storage and the size, known before the call, holds |
| SizedFree.FailedXallocxKeepsTheBlock | crates/topo-core/src/allocator.rs:3776-3790 | a resize that falls short of the size has changed nothing |
| SizedFree.CallKeepsClaimExactly | crates/topo-core/src/allocator.rs:3571-3866 | which realloc or resize loses an accepted claim, if and only if |
| SizedFree.SizedFreeAcceptedThroughoutExactly | crates/topo-abi/src/c_api.rs:363-390 | from any fresh block, guarded or not, and over any run of reallocs and resizes, the owner's size passes at every point if and only if it does at first and no call loses it |
| SizedFree.CautiousOwnersAreAccepted | crates/topo-abi/src/c_api.rs:363-390 | an owner who makes only calls that are safe before the fact is accepted throughout, whatever storage and answers it gets |
| SizedFree.XallocxHintCanFail | crates/topo-abi/src/extended.rs:351-394 | 40000 bytes shrunk to 100 and a 100-byte slot resized to 10 are successes whose size is then rejected |
| StatsView.RedactKeepsExactlyTheVisible | crates/topo-stats/src/lib.rs:897-903 | exactly the dominated arena lines are kept, each as often as it occurred |
| StatsView.LowSummaryIsOwnTotals | crates/topo-stats/src/lib.rs:934-953 | a non-top observer is told its own domains' live bytes, balanced, and no cross-domain figure |
| StatsView.LowViewIsAFunctionOfLowState | crates/topo-abi/src/stats_api.rs:90-173 | states alike to an observer give it the same result but for the epoch, exactly the same when the epochs agree, and its call changes nothing else |
| StatsView.HighActivityIsInvisible | crates/topo-abi/src/stats_api.rs:505-522 | over any sequence of calls, whatever other domains do in between, a low observer sees what it would had they done nothing |
| StatsView.LowRunsLookTheSame | crates/topo-abi/src/stats_api.rs:505-522 | two runs with the same low calls look the same to the low observer |
| StatsView.LowCallsLeaveTheEngineAlone | crates/topo-abi/src/stats_api.rs:133-147 | no sequence of low calls changes the peak gauge or anything else an authorized reader reads but the epoch |
| StatsView.PeakIsHighWaterSinceLastReset | crates/topo-core/src/allocator.rs:4455-4503 | over every history of charges, frees and snapshots by anyone, the peak an authorized reader is shown is the most bytes live at any point since the last delivered reset by an authorized reader |
| StatsView.StatsApi.RedactedArenas | crates/topo-stats/src/lib.rs:897-903 | the filtering loop computes the redacted lines in order |
| StatsView.StatsApi.Compose | crates/topo-abi/src/stats_api.rs:90-173 | one call bumps the epoch once and composes exactly the specified view |
| Hooks.RegistryMirrorsBackends | crates/topo-abi/src/hooks_api.rs:33-53 | in every run of calls the registry holds exactly the pairs the engine's hook backends borrow |
| Hooks.AdaptersFreedExactlyOnce | crates/topo-abi/src/arena_api.rs:190-215 | an adapter is alive exactly while some backend borrows it, and otherwise has been freed exactly once |
| Hooks.HookApi.ReclaimChooks | crates/topo-abi/src/hooks_api.rs:40-53 | removes and frees the first entry for the arena, if any |
| Hooks.HookApi.TopoArenaCreateHooked | crates/topo-abi/src/hooks_api.rs:314-363 | a created arena is registered with its adapter; a failed creation frees it at once |
| Hooks.HookApi.TopoArenaDestroy | crates/topo-abi/src/arena_api.rs:190-215 | the adapter is reclaimed exactly when the engine no longer borrows it, after a clean destroy or a failed teardown but not a failed drain |
| Topology.ForEachInList | crates/topo-backend-posix/src/lib.rs:867-882 | the walk visits exactly the CPUs the list names, in order |
| Topology.VisitsOfJoin | crates/topo-backend-posix/src/lib.rs:867-882 | a comma-joined list names the concatenation of its pieces, malformed pieces none, whatever space surrounds it |
| Topology.CpuListRoundTrip | crates/topo-backend-posix/src/lib.rs:867-882 | a list written from CPUs and ranges reads back as exactly those CPUs |
| Topology.ReadCpuNodes | crates/topo-backend-posix/src/lib.rs:892-910 | each CPU gets the last node that names it and is marked seen exactly if one does; nothing is returned exactly when no list could be read |
| Topology.LastNamingIsLast | crates/topo-backend-posix/src/lib.rs:892-910 | that node names the CPU and no later one does |
| Topology.ReadCpuLlc | crates/topo-backend-posix/src/lib.rs:915-931 | dense numbers are equal exactly when package ids are, and none is skipped; it fails exactly when an id is unreadable |

## Left out

- Memory orderings, cache-line placement and thread-local storage: each atomic access is one step.
- `fork()` itself, the child-side reset and forking during a registration attempt.
- Switching profiling off and rebuilding the sampling filter, where the source accepts inexact counts; the filter is the set of addresses inserted, with false positives allowed at every query.
- Partially applied system calls, the non-unix fallback and the Darwin discard advice.
- Call counters, fork-gate count overflow at 2^63, and the sum of visible arenas' bytes overflowing 64 bits.
- NUMA binding has an outcome but no effect on pages.
- The engine behind the adapter, the hooks and the sized frees appears only through what its callers rely on.
- Concurrent hooked create and destroy of one arena id: each C call is one step.
- JSON rendering, errno, zero-size policy, the control wrappers, and `fill_builder` with the builder's own fallback.
- The 2048-entry index is written as its eight runs of doubling length rather than entry by entry.
- SampledTable.SampledObjects.OnFree: a hit on a full table is excluded, because the deletion loop does not return there.
- SampledTable.SampledObjects.RemoveAt: a full table is excluded for the same reason; `SampledTable.RemovalStopsExactlyWhenASlotIsEmpty` covers it.
- Simulator.Sele4nSim.Decommit: the check and the zeroing are one step; `SimThreads` separates them.
- GlobalAdapter.TopoMallocGlobal.Dealloc: what the system allocator does with a pointer that is not its own is undefined; the model records the misuse only.
- GlobalAdapter.TopoMallocGlobal.Realloc: likewise, and the misuse is answered as a failure.
- Agreement.ProvidersAgree: system calls and the host allocator do not fail, and clients store only to memory the provider still backs.
- StatsView.PeakIsHighWaterSinceLastReset: a charge and its raising of the gauge are one step, so the transient skew of concurrent counters is not modelled.
- SizedFree.XallocxHintAcceptedExactly: an argument error, which changes nothing, is not modelled.
- Sampling.ManyThreadsFillTheTable: stated for capacities of at least eight, the smallest with a load cap below the capacity.
