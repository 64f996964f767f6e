# Offloading runtimes: a verified model

This project models the hard core of the LLVM OpenMP offloading runtimes in Dafny and
proves what it promises.  It covers four parts.

**The device data environment of libomptarget** (OpenMP API 4.5, sections 2.15.5.1 and
3.5).  `DeviceMap` holds the entry list of one device and its lookups, `DataEnvironment`
the two memories, the plugin's allocator, the shadow pointers and the three interface
calls as functions on states, `TargetRegion` adds `target()`.  `Device` is the runtime's
object: a class whose methods update these fields in place, with the loops and early
exits of the source, each proved to compute the function of the same name.  The theorems
about the functions follow:

- `MapInverse`, `ReadableLists`: end undoes begin, with the exact condition for one
  argument and a check before the call for lists;
- `MapInvariant`, `DeviceBlocks`, `DeviceRuns`, `BlockAccounts`: what every state reached
  by calls keeps, and that nothing leaks;
- `TransferRuns`, `TransferOnce`: which bytes are copied when, over whole runs;
- `TargetAddresses`, `DeviceContents`: the addresses given to the program and to kernels,
  and what device memory holds there;
- `ShadowPointers`: pointers inside structures survive copies in both directions;
- `UpdateLists`: what an update of a whole list fetches and sends;
- `ReturnCodes`: when the calls report success;
- `RefusedCopies`: what a refused private copy leaves behind;
- `RegionMemory`, `Transparency`: offloading a region means the same as running it on the
  host;
- `Counterexamples`: concrete inputs on which the runtime falls short.

`MemcpyRect` is the box copy between device memories, `EntryCache` the cache in front of
the translation tables.

**Array sections and strided transfers** of liboffload.  `ArraySections` defines the bytes
of a section by recursion over its dimensions.  `ReadRanges` (mixed-radix reader),
`RangeGenerator` (recursive enumerator), `SectionHull` (offset, length and contiguity) and
`DopeVectors` (Fortran descriptors) are each proved against that definition, and
`StreamCopy` moves bytes between differently shaped runs.

**Host-side tables** of liboffload: `PointerIndex` (a search tree whose order takes
overlapping ranges for equal), `PersistStack` (stack buffers), `VarTable` and
`EntryMatching` (serialised variable tables and their matching).

**Object files** of the runtime's build tool: `DependencyClosure`, `StringTable` and
`SymbolHiding`.

`Memory`, `CStrings` and `Wrappers` are shared by all parts.  Memories are finite maps from
addresses to bytes.  The plugin is an arbitrary allocator and an arbitrary copier: each
copy succeeds, or fails after any number of its bytes; one that touches an unallocated
address fails and copies nothing.  Theorems that need it ask that a granted block is new,
non-null and disjoint from all memory (`Honest`).  A kernel is an arbitrary function on
device memory and its parameters that may fail; `Transparency` asks that one that succeeds
touches its parameters only.

Three conventions recur.  A method that changes state is stated against a function of the
old state, and the lemmas are about that function.  A member whose name ends in `Iff`
gives the exact condition of a property that does not always hold.  `Run` and similar
functions fold a step over a sequence of calls, so statements about them hold of every
run.

## What the model shows about the code

- One argument mapped and unmapped gives the entry list back exactly under
  `SectionRoundTrips`; DELETE on a mapped section (`DeleteReleases`) or an illegal extension
  breaks it.
- A `PTR_AND_OBJ` argument that is not a member leaves the mapping of its pointer slot
  behind: begin maps it, end does not look at it (`PointerArgumentResidue`, `SlotStays`).
- A `PTR_AND_OBJ` member whose pointee is already mapped is sent again when its parent has
  count 1, because begin lacks the exception that end makes; this can put stale host data
  on the device (`AttachedPointeeIsResent`, `StaleResend`).
- A refused private allocation in `target()` leaves an entry with target address 0
  (`RefusedPrivateLeaks`, `CopyRefused`), unless another argument's end step happens to
  remove it (`HiddenLeak`).
- The private copy of an array that is mapped already is the mapped entry, and its forced
  release deletes it (`LonePrivateExact`, `MappedEntryDeleted`).  The source only asserts
  that this does not happen.
- `IsNew` is left unset for an illegal extension and for an empty section that matches
  nothing; the model lets it be either value there.
- An argument that is both RETURN_PARAM and TARGET_PARAM hands the kernel a base that is
  off, because begin has replaced the base that `target()` then computes the offset from
  (`KernelFinds`, `ReturnParamMisleads`).  `Transparency` speaks of lists without
  RETURN_PARAM.
- The pointer of a member of a private struct is put where its slot is in the device copy
  only if the struct's section begins at its base (`PrivatePointerSet`).
- When begin fails, `target()` still calls end, which copies the FROM sections back.  A
  section that was not sent in full then comes back as whatever was in its block: the host
  is unharmed exactly under the condition of `FailedBegin`, and `FailedBeginHarms` is an
  input on which it is not.
- An offload that fails drops the stack buffers it had queued for destruction; a run loses
  a buffer exactly under the condition of `LostIff` (`BufferLost`).
- `associatePtr` compares begin addresses only, so it accepts a range that overlaps another
  entry (`AssociateWellFormedIff`, `OverlapAccepted`); `Legal` asks for one that does not.
- `is_arr_desc_contiguous` calls a stride above 1 non-contiguous even if it selects one
  index (`SingleIndexMissed`).  Its answers are right exactly if cutting bounds that are not
  reached would not change a no (`TestExactIff`).
- `__dv_is_contiguous` likewise compares the multiplier of a dimension with one element
  (`SingleElementMissed`, `GaplessIff`).
- A reader of a descriptor whose dimensions are all full drops the displacement of the
  outermost one; it is exact only if there is none (`ReaderExactIff`, `StartDropped`).  The
  callers use a reader only where the contiguity test fails, and then some dimension is
  enumerated (`FullIsSolid`).
- A dope-vector reader of a packed vector reads one outermost element only
  (`InitReadRangesDv`, `PackedReaderShort`); the callers use it only for vectors that are
  not packed.
- After a transfer the source reader is rewound, the destination reader stands behind the
  last run that was written (`Transfer`).
- A symbol with an empty name does not survive the string table unless the table's length
  is a multiple of 256 (`RoundTripIff`, `EmptyNameLost`).
- Reading a string table that no NUL ends, the program adds one and then copies one byte
  too many over it, so the last name may run on (`LoadedEndsIff`, `NameRunsOn`).
- If two libraries share a host address, the cached lookup can differ from the search
  (`CacheAgreesIff`, `SharedAddress`).

## Model

| member | source | states |
|---|---|---|
| DeviceMap.LookupIs | libomptarget/src/omptarget.cpp:861-895 | the lookup returns the first entry for which any of the three flags is set, and the end of the list if there is none |
| DeviceMap.FlaggedIffMeets | libomptarget/src/omptarget.cpp:866-884 | the three flags together are set exactly when the section and the entry share a byte |
| DeviceMap.LookupFindsOverlap | libomptarget/src/omptarget.cpp:861-895 | the lookup finds an entry if and only if some entry shares a byte with the section |
| DeviceMap.OwnerUnique | libomptarget/src/omptarget.cpp:861-895 | a host byte belongs to at most one entry of a well-formed list |
| DeviceMap.RefCountOwner | libomptarget/src/omptarget.cpp:839-859 | the reference count of an address is the count of the entry that holds it |
| DeviceMap.AssociateWellFormed | libomptarget/src/omptarget.cpp:767-809 | associating a range that overlaps no entry keeps the list non-empty, disjoint and counted |
| DeviceMap.AssociateWellFormedIff | libomptarget/src/omptarget.cpp:767-809 | associating makes entries overlap exactly if the range overlaps an entry with another begin address |
| DeviceMap.OverlapAccepted | libomptarget/src/omptarget.cpp:767-809 | a concrete range inside an entry is accepted and overlaps it |
| DeviceMap.AssociateSucceedsIff | libomptarget/src/omptarget.cpp:767-809 | for every list: the call succeeds if and only if afterwards the first entry with that begin address has the given end and target, and a list that holds such a begin address is unchanged |
| DeviceMap.AssociatedTranslates | libomptarget/src/omptarget.cpp:767-809 | after a successful call every byte of the range translates to its displacement in the given device memory |
| DeviceMap.DisassociateSucceedsIff | libomptarget/src/omptarget.cpp:811-836 | the call succeeds if and only if the first entry with that begin address has an infinite count; then exactly this entry is gone, otherwise nothing is |
| DeviceMap.DisassociateWellFormed | libomptarget/src/omptarget.cpp:811-836 | disassociating keeps the list well-formed |
| DeviceMap.DisassociateUndoesAssociate | libomptarget/src/omptarget.cpp:767-836 | disassociating a range that was just associated gives the list back |
| Memory.EncodeDecode | libomptarget/src/omptarget.cpp:1578-1596 | the bytes of a pointer slot are recovered from its value |
| Memory.LoadStoredPtr | libomptarget/src/omptarget.cpp:1578-1596 | a 64-bit pointer survives being stored in a slot and read back |
| MapInverse.GetOrAllocEntries | libomptarget/src/omptarget.cpp:902-945 | what getOrAllocTgtPtr does to the entry list, in each of its cases |
| MapInverse.ExtensionIff | libomptarget/src/omptarget.cpp:902-945 | a section that is partly mapped is refused, with a null pointer and nothing changed, unless it is implicit; then it gets the first entry it meets |
| MapInverse.EndStepEntries | libomptarget/src/omptarget.cpp:1673-1786 | what one iteration of target_data_end does to the entry list |
| MapInverse.BeginStepEntries | libomptarget/src/omptarget.cpp:1477-1597 | what one iteration of target_data_begin does to the entry list |
| MapInverse.SectionInverseIff | libomptarget/src/omptarget.cpp:902-1020 | mapping a section and unmapping it gives the list back if and only if the stated test on the list before the call holds |
| Counterexamples.DeleteReleases | libomptarget/src/omptarget.cpp:1700-1709 | begin and end with DELETE over a mapped byte remove the enclosing entry |
| MapInverse.ArgumentInverseIff | libomptarget/src/omptarget.cpp:1477-1786 | the same for a whole argument, padding, implicit extension, zero length and MEMBER_OF included |
| MapInverse.PointerArgumentResidue | libomptarget/src/omptarget.cpp:1513-1531 | a PTR_AND_OBJ argument leaves exactly the mapping of its pointer slot behind |
| Counterexamples.SlotStays | libomptarget/src/omptarget.cpp:1513-1531 | a pointer mapped with what it points to: its slot is still mapped after the end |
| MapInverse.SlotKeptIff | libomptarget/src/omptarget.cpp:1513-1531 | when mapping the pointer slot changes nothing |
| MapInverse.EndUndoesBegin | libomptarget/src/omptarget.cpp:1473-1790 | target_data_end after target_data_begin restores the entry list exactly, order and counts included, for any argument list whose arguments pass the test |
| ReadableLists.ReadableListRoundTrips | libomptarget/src/omptarget.cpp:1473-1600 | a list without DELETE whose sections are contained in or apart from the entries and one another, members inside their parents, passes the test, whatever the plugin does |
| ReadableLists.ReadableUndone | libomptarget/src/omptarget.cpp:1473-1790 | so target_data_end after target_data_begin restores the entry list for every list that passes a check made before the call |
| MapInverse.RunRestoresMap | libomptarget/src/omptarget.cpp:1473-1972 | every well-bracketed run of begins, ends, updates and computations gives the list back |
| MapInvariant.RunInvariant | libomptarget/src/omptarget.cpp:767-1020 | in every run of map operations the entries are non-empty and disjoint and the counts at least 1, and counts stay near 0 or near the infinite value |
| MapInvariant.InfinityRecognised | libomptarget/src/omptarget.cpp:42-43 | in every run shorter than half the infinite count, a count reads as infinite exactly for associated entries, and only those can be disassociated |
| MapInvariant.TargetIsRun | libomptarget/src/omptarget.cpp:1980-2187 | target() with its private copies and their forced release is such a sequence, whatever fails |
| MapInvariant.PerformIsRun | libomptarget/src/omptarget.cpp:1473-2187 | each interface call, target() included, acts on the list as a sequence of map operations |
| MapInvariant.CallsAreRuns | libomptarget/src/omptarget.cpp:1473-2187 | so does every sequence of calls |
| MapInvariant.ReachableMap | libomptarget/src/omptarget.cpp:767-1020 | the invariant and the recognition of infinite counts hold in every state reached by calls, target() included |
| DeviceBlocks.TranslationInjective | libomptarget/src/omptarget.cpp:950-978 | distinct mapped host bytes have distinct device addresses |
| DeviceBlocks.TranslationAllocated | libomptarget/src/omptarget.cpp:950-978 | a mapped host byte translates into allocated device memory |
| DeviceBlocks.BeginOk | libomptarget/src/omptarget.cpp:1473-1600 | target_data_begin keeps every granted entry on a live block of its own |
| DeviceBlocks.EndOk | libomptarget/src/omptarget.cpp:1669-1790 | target_data_end keeps it too |
| DeviceBlocks.AssociateOk | libomptarget/src/omptarget.cpp:767-809 | associating user memory keeps it |
| DeviceRuns.UpdateOk | libomptarget/src/omptarget.cpp:1900-1972 | an update keeps it |
| DeviceRuns.TargetOk | libomptarget/src/omptarget.cpp:1980-2187 | target() keeps it on every path, for any kernel that does not allocate |
| DeviceRuns.RunOk | libomptarget/src/omptarget.cpp:767-2187 | every run of calls keeps it, target() included |
| DeviceRuns.TranslationReachable | libomptarget/src/omptarget.cpp:950-978 | in every state reached by calls, target() included, translation is injective and lands in allocated device memory |
| BlockAccounts.NothingLeaks | libomptarget/src/omptarget.cpp:767-2187 | in every run that disassociates only the user's memory each live block belongs to an entry, and device memory that is the user's stays the user's |
| BlockAccounts.MapBackMemoryBack | libomptarget/src/omptarget.cpp:767-2187 | such a run, if it gives the map back, gives the device allocation back exactly |
| BlockAccounts.TargetFreesMemory | libomptarget/src/omptarget.cpp:1980-2187 | in particular target() frees exactly what it allocated whenever private copies are granted |
| TransferRuns.SubmittedIff | libomptarget/src/omptarget.cpp:1553-1576 | a TO section is submitted exactly when it was absent, or is a plain member of a parent with count 1 |
| TransferRuns.FetchedIff | libomptarget/src/omptarget.cpp:1711-1743 | a FROM section is retrieved exactly when the end removes it, or as a plain member of a parent with count 1 |
| TransferRuns.BeginStepLog | libomptarget/src/omptarget.cpp:1546-1597 | the transfers one iteration of target_data_begin makes |
| TransferRuns.EndStepLog | libomptarget/src/omptarget.cpp:1711-1743 | the transfers one iteration of target_data_end makes |
| TransferRuns.NoTransferWhileMapped | libomptarget/src/omptarget.cpp:1473-1790 | while a range is mapped no nested run copies any byte of it |
| TransferRuns.AttachedPointeeIsResent | libomptarget/src/omptarget.cpp:1553-1576 | a mapped pointee attached to a parent with count 1 is sent again, unless one entry holds both, and only then |
| Counterexamples.StaleResend | libomptarget/src/omptarget.cpp:1553-1576 | target_data_begin from a sound state puts a stale host byte over a newer byte on the device |
| ReadableLists.RegularListTidy | libomptarget/src/omptarget.cpp:1473-1600 | a readable list without ALWAYS, with sent pointees unmapped, meets the hypothesis of the transfer theorems |
| TransferOnce.OnlyOwnTransfers | libomptarget/src/omptarget.cpp:1473-1790 | a region around any tidy run copies bytes of a section that enters, or of a member of a struct that enters, only in the steps of that argument |
| TransferOnce.TransferredOnce | libomptarget/src/omptarget.cpp:1473-1790 | a section that enters, struct or not, is transferred once in each direction its map type asks for, in every part its members leave to it |
| TransferOnce.MemberTransferredOnce | libomptarget/src/omptarget.cpp:1473-1790 | a member of a struct that enters is transferred once in each direction its map type asks for if the struct has count 1 at its turn, and not at all otherwise |
| TargetRegion.TargetRestoresMap | libomptarget/src/omptarget.cpp:1980-2187 | whatever fails, target() gives the entry list back if private copies are granted |
| RefusedCopies.RefusedPrivateLeaks | libomptarget/src/omptarget.cpp:2084-2115 | for any list that round-trips, with its private arrays unmapped: a refused private copy that no mapped argument meets leaves exactly its entry, with target address 0, and target() fails |
| RefusedCopies.TargetRestoresIff | libomptarget/src/omptarget.cpp:1980-2187 | for any list that round-trips, with its private arrays unmapped and met by no mapped argument: target() gives the entry list back exactly if begin fails or no private copy is refused |
| Counterexamples.CopyRefused | libomptarget/src/omptarget.cpp:2084-2115 | a refused private array in a sound state leaves its entry with target address 0 |
| RefusedCopies.LonePrivateExact | libomptarget/src/omptarget.cpp:2084-2175 | for a private array alone, the list after target() in every case: refused, granted, or mapped already, when the forced release deletes the entry that was there |
| RefusedCopies.LonePrivateRestoresIff | libomptarget/src/omptarget.cpp:2084-2175 | so target() gives the list back exactly if the array is unmapped and its copy is not refused |
| Counterexamples.MappedEntryDeleted | libomptarget/src/omptarget.cpp:2084-2175 | a private array that an enclosing region has mapped: target() deletes that region entry |
| Counterexamples.HiddenLeak | libomptarget/src/omptarget.cpp:1669-1790 | an empty section inside the range of a refused private copy makes the end step remove the leaked entry |
| Transparency.BeginSucceedsIff | libomptarget/src/omptarget.cpp:1473-1600 | target_data_begin succeeds exactly if every TO section gets a block and is sent in full |
| Transparency.MapClauses | libomptarget/src/omptarget.cpp:1980-2187 | for any kernel, map types and transfer failures: the kernel sees the host contents of TO sections; target() succeeds exactly if the kernel and every retrieve do, and then exactly the FROM sections receive the outputs; a section whose retrieve fails receives the part that was copied |
| Transparency.FailedBegin | libomptarget/src/omptarget.cpp:2037-2046 | if begin fails, target() fails and the device is restored; the host is unharmed if and only if no section is fetched further than it was sent, equal bytes aside |
| Counterexamples.FailedBeginHarms | libomptarget/src/omptarget.cpp:2037-2046 | a TOFROM byte whose submit fails: target() fails and has overwritten it with what was in the block |
| Transparency.OffloadTransparency | libomptarget/src/omptarget.cpp:1980-2187 | target() succeeds exactly if begin, the kernel and every retrieve do; then the host memory is that of a run on the host and the device is as before; if begin fails, the condition of FailedBegin decides about the host |
| TargetAddresses.ReturnedBase | libomptarget/src/omptarget.cpp:1546-1551 | after target_data_begin of any list the base a RETURN_PARAM argument gets back, plus the displacement of a byte from the host base (the pointer in the slot for PTR_AND_OBJ), is the translation of that byte |
| TargetAddresses.BaseKept | libomptarget/src/omptarget.cpp:1477-1551 | and every other argument keeps the base it had |
| TargetAddresses.SectionParam | libomptarget/src/omptarget.cpp:2127-2139 | target(), any list: from the parameter a mapped section becomes, pointer plus offset plus displacement from the base is the translation of the byte |
| TargetAddresses.UnmappedParam | libomptarget/src/omptarget.cpp:2127-2139 | a section of which no byte is mapped is handed over as the null pointer |
| TargetAddresses.PointerParam | libomptarget/src/omptarget.cpp:2120-2126 | a PTR_AND_OBJ argument becomes the translation of its slot, offset 0 |
| TargetAddresses.PrivateParam | libomptarget/src/omptarget.cpp:2087-2119 | a private array becomes its copy, indexed from the base like a section |
| TargetAddresses.LiteralParam | libomptarget/src/omptarget.cpp:2082-2086 | a by-value argument is handed over as it is |
| TargetAddresses.KernelFinds | libomptarget/src/omptarget.cpp:1980-2140 | through begin and the collection together, for any list: the kernel finds the bytes of a mapped section from the base the program knows, except if the argument is RETURN_PARAM and begin has changed that base |
| Counterexamples.ReturnParamMisleads | libomptarget/src/omptarget.cpp:1547-1550 | an argument that is TARGET_PARAM and RETURN_PARAM: the program gets the device address 500, the kernel gets 0 as its base |
| TargetAddresses.KernelRun | libomptarget/src/omptarget.cpp:2037-2187 | it is these parameters and this device memory the kernel is run on, and the result of target() is success exactly if begin, collection, kernel, release and end all succeed |
| DeviceContents.Widened | libomptarget/src/omptarget.cpp:1487-1498 | the section of a struct is widened downwards to an 8-aligned begin, and no other section is |
| DeviceContents.StructAligned | libomptarget/src/omptarget.cpp:1487-1498 | so every byte of a struct that enters has on an aligned block the alignment it has on the host |
| DeviceContents.SectionLoaded | libomptarget/src/omptarget.cpp:1546-1576 | after a successful target_data_begin of any list each byte of a section that was sent is on the device, where the map translates it, unless a later transfer of the log wrote there |
| DeviceContents.AlwaysSubmitted | libomptarget/src/omptarget.cpp:1553-1576 | an ALWAYS TO section is sent to its translation whatever its count |
| DeviceContents.AlwaysFetched | libomptarget/src/omptarget.cpp:1711-1743 | an ALWAYS FROM section is fetched from its translation whatever its count |
| DeviceContents.PointerAttached | libomptarget/src/omptarget.cpp:1578-1596 | after a successful target_data_begin of any list the device slot of a pointer mapped with its pointee holds the device base from which each byte of the pointee, at its displacement from the host pointer, is where the map translates it; the shadow map records it |
| DeviceContents.PrivateSlotLeft | libomptarget/src/omptarget.cpp:1513-1531 | for a member of a private struct no slot is mapped and no pointer sent or recorded |
| DeviceContents.FirstPrivateLoaded | libomptarget/src/omptarget.cpp:2087-2119 | at the launch each byte of a firstprivate array is, where the kernel finds it, the host's, unless a pointer was put there |
| DeviceContents.PrivatePointerSet | libomptarget/src/omptarget.cpp:2062-2077 | at the launch the slot of a member of a private struct holds the device address of the member's section; the slot is the translation of the host slot exactly if the struct's section begins at its base |
| DeviceContents.KernelSees | libomptarget/src/omptarget.cpp:1980-2140 | for any list: where the kernel finds byte x of a section that was sent, from the base the program knows, is the host's byte |
| ReturnCodes.BeginOkIff | libomptarget/src/omptarget.cpp:1473-1600 | target_data_begin returns success exactly if every transfer in its part of the log was made in full |
| ReturnCodes.EndOkIff | libomptarget/src/omptarget.cpp:1669-1790 | target_data_end returns success exactly if for every argument the transfer was made and DELETE was not asked of a section that is not mapped |
| ReturnCodes.BuildOkIff | libomptarget/src/omptarget.cpp:2055-2140 | the kernel's arguments are collected successfully exactly if no private copy is refused and every transfer is made |
| ReturnCodes.FreeOkIff | libomptarget/src/omptarget.cpp:2167-2175 | the private copies are released successfully exactly if each is still mapped at its turn |
| ShadowPointers.InRangeExact | libomptarget/src/omptarget.cpp:1745-1776 | the scan takes exactly the shadow entries with a key in the section and drops exactly those |
| ShadowPointers.InsertExact | libomptarget/src/omptarget.cpp:1578-1596 | recording a pointer replaces the entry of its slot and no other |
| ShadowPointers.InsertSorted | libomptarget/src/omptarget.cpp:1578-1596 | the shadow map stays sorted |
| ShadowPointers.FilterSorted | libomptarget/src/omptarget.cpp:1745-1776 | also after a scan |
| ShadowPointers.CopiedBackExact | libomptarget/src/omptarget.cpp:1745-1776 | overwriting a section with any data and restoring its slots: host pointers in the slots, the data in the rest of the section, nothing else changed |
| ShadowPointers.EndStepHost | libomptarget/src/omptarget.cpp:1711-1776 | what one iteration of target_data_end does to the host and the shadow map: the section with the bytes it brings, the slots restored, and the records in it dropped exactly if the section is released |
| ShadowPointers.EndStepFetches | libomptarget/src/omptarget.cpp:1711-1743 | a section that is due and arrives brings exactly the bytes of its device section |
| ShadowPointers.EndStepBytes | libomptarget/src/omptarget.cpp:1711-1776 | byte by byte for one argument: slots keep their host pointers, the rest of the section is what was brought, all else is untouched |
| ShadowPointers.EndFetchesByte | libomptarget/src/omptarget.cpp:1669-1790 | after the whole of target_data_end a byte of a fetched section is the device byte it is mapped to, unless it lies in a slot or in a section fetched later |
| ShadowPointers.EndLeavesByte | libomptarget/src/omptarget.cpp:1669-1790 | and a byte outside every slot and every FROM section is as it was |
| ShadowPointers.BeginKeepsSlots | libomptarget/src/omptarget.cpp:1578-1596 | after target_data_begin every recorded value is what its host slot holds |
| ShadowPointers.EndKeepsSlots | libomptarget/src/omptarget.cpp:1669-1790 | target_data_end leaves every recorded slot as recorded |
| ShadowPointers.EndForgets | libomptarget/src/omptarget.cpp:1745-1776 | target_data_end drops the record of a slot exactly if some argument releases a section that holds it |
| ShadowPointers.CleanRegion | libomptarget/src/omptarget.cpp:1669-1790 | a check made before the call: FROM sections take slots whole and stay clear of those dropped before them |
| ShadowPointers.RegionKeepsHostPointers | libomptarget/src/omptarget.cpp:1473-1790 | a whole region leaves the host pointer slots with the bytes they had before, whatever the kernel did |
| ShadowPointers.UpdateFromKeepsSlots | libomptarget/src/omptarget.cpp:1925-1946 | an update FROM keeps the host pointers, whether its transfer succeeds or not, and brings the rest of the section if it does |
| ShadowPointers.UpdateToKeepsSlots | libomptarget/src/omptarget.cpp:1948-1970 | after an update TO, or TO and FROM, whose transfers succeed the device slots hold the device pointers |
| ShadowPointers.UpdateToSendsRest | libomptarget/src/omptarget.cpp:1948-1970 | and the rest of the device section holds the host data |
| UpdateLists.UpdateLog | libomptarget/src/omptarget.cpp:1914-1970 | the log of an update of any list: for every argument, in list order and nothing between, the retrieve of a FROM section, then the submit of a TO section and of the pointers in it |
| UpdateLists.UpdateFetchesByte | libomptarget/src/omptarget.cpp:1914-1946 | after an update of any list a byte of a FROM section outside slots and later FROM sections is the device byte it was mapped to at its argument's turn, if the transfer succeeded |
| UpdateLists.UpdateSendsByte | libomptarget/src/omptarget.cpp:1914-1970 | a device byte of a TO section outside slots and later TO sections is the host byte of its argument's turn, if the transfer succeeded |
| UpdateLists.UpdateLeavesByte | libomptarget/src/omptarget.cpp:1914-1970 | a host byte outside slots and FROM sections is as it was |
| UpdateLists.UpdateLeavesDevice | libomptarget/src/omptarget.cpp:1914-1970 | so is a device byte outside slots and TO sections |
| Device.ScanStops | libomptarget/src/omptarget.cpp:1745-1776 | in a sorted shadow map the scan may stop at the first key past the section |
| Device.DeviceTy.LookupMapping | libomptarget/src/omptarget.cpp:861-895 | the loop returns the first flagged entry and its flags |
| Device.DeviceTy.GetMapEntryRefCnt | libomptarget/src/omptarget.cpp:839-859 | the loop returns the count of the entry holding the address, or -1 |
| Device.DeviceTy.AssociatePtr | libomptarget/src/omptarget.cpp:767-809 | the new state and result are those of Associate, which AssociateSucceedsIff and AssociatedTranslates characterise |
| Device.DeviceTy.DisassociatePtr | libomptarget/src/omptarget.cpp:811-836 | the new state and result are those of Disassociate |
| Device.DeviceTy.GetOrAllocTgtPtr | libomptarget/src/omptarget.cpp:902-945 | the new state, pointer and IsNew are those of GetOrAlloc |
| Device.DeviceTy.GetTgtPtrBegin | libomptarget/src/omptarget.cpp:950-978 | the new state, pointer and IsLast are those of GetTgtPtr |
| Device.DeviceTy.DeallocTgtPtr | libomptarget/src/omptarget.cpp:992-1020 | the new state and result are those of Dealloc |
| Device.DeviceTy.ScanShadows | libomptarget/src/omptarget.cpp:1745-1776 | the early-exit loop that erases as it goes restores and drops exactly the shadow entries in range |
| Device.DeviceTy.ScanShadowsDevice | libomptarget/src/omptarget.cpp:1948-1970 | the update loop resubmits exactly the device pointers in range |
| Device.DeviceTy.TargetDataBegin | libomptarget/src/omptarget.cpp:1473-1600 | the forward loop, which goes on after a failure, and its changes to args_base compute DataBegin |
| Device.DeviceTy.TargetDataEnd | libomptarget/src/omptarget.cpp:1669-1790 | the reverse loop computes DataEnd |
| Device.DeviceTy.TargetDataUpdate | libomptarget/src/omptarget.cpp:1900-1972 | the loop computes DataUpdate, whose log and bytes UpdateLog, UpdateFetchesByte and UpdateSendsByte give |
| Device.DeviceTy.CollectArguments | libomptarget/src/omptarget.cpp:2055-2140 | the loop collects the kernel arguments and makes the private copies as BuildFirst says; SectionParam, PointerParam, PrivateParam and LiteralParam give the parameters |
| Device.DeviceTy.ReleasePrivates | libomptarget/src/omptarget.cpp:2167-2175 | the private copies are released in order |
| Device.DeviceTy.Target | libomptarget/src/omptarget.cpp:1980-2187 | the whole of target() computes TargetRegion.Target |
| MemcpyRect.Devices.OmpTargetMemcpy | libomptarget/src/omptarget.cpp:597-649 | return code in every case, failing plugin copies included; how much of the block is copied, all of it on success, and nothing else changes |
| MemcpyRect.Devices.OmpTargetMemcpyRect | libomptarget/src/omptarget.cpp:651-705 | return code in every case; on success the bytes of the source box are delivered to those of the destination box in index order, for any number of dimensions; if a plugin copy fails, a first part of them |
| MemcpyRect.BoxAt | libomptarget/src/omptarget.cpp:676-690 | the bytes of a box are those of its cells, in index order |
| MemcpyRect.CellOf | libomptarget/src/omptarget.cpp:676-690 | and every byte of a box belongs to a cell |
| MemcpyRect.CopiedTwice | libomptarget/src/omptarget.cpp:685-700 | consecutive rows add up, also within one memory, if the boxes are apart |
| MemcpyRect.CellCopied | libomptarget/src/omptarget.cpp:651-705 | after success every cell of the destination box holds the source cell with the same index |
| MemcpyRect.CellOldOrCopied | libomptarget/src/omptarget.cpp:651-705 | a call that fails on the way leaves each byte of a cell as it was or copied |
| MemcpyRect.OtherBytesKept | libomptarget/src/omptarget.cpp:651-705 | no call, failed or not, changes another byte of any device |
| EntryCache.SearchFinds | libomptarget/src/omptarget.cpp:1992-2015 | the search of all tables finds a live location, or no table has the address |
| EntryCache.StepConsistent | libomptarget/src/omptarget.cpp:1195-1202 | registration, lookup and unregistration keep each cached address on a live table entry with that address |
| EntryCache.RunConsistent | libomptarget/src/omptarget.cpp:1985-2026 | so in every run a cached location is the first of a registered table with its address |
| EntryCache.CacheAgreesIff | libomptarget/src/omptarget.cpp:1985-2026 | the cached lookup equals the full search exactly if no library with a smaller key than the cached one has the address too |
| EntryCache.CacheAgrees | libomptarget/src/omptarget.cpp:1985-2026 | in particular with distinct addresses |
| EntryCache.FoundIffRegistered | libomptarget/src/omptarget.cpp:1985-2026 | an address is found, cached or not, exactly if a registered library has it |
| EntryCache.NothingOutlives | libomptarget/src/omptarget.cpp:1295-1313 | no cache entry survives its library |
| EntryCache.RegisteredIff | libomptarget/src/omptarget.cpp:1195-1313 | in every run a table is registered exactly if its library was registered with an image some plugin supports and not unregistered since |
| EntryCache.FoundIffLoaded | libomptarget/src/omptarget.cpp:1985-2026 | so an address is found, cached or not, exactly if such a library has it, and at the address's first place in one |
| EntryCache.CachedIff | libomptarget/src/omptarget.cpp:1295-2026 | in every run an address is cached exactly if it was looked up and found and no library that has it was unregistered since |
| EntryCache.SharedAddress | libomptarget/src/omptarget.cpp:1985-2026 | with a shared address cached lookup and search differ in a concrete run |
| EntryCache.Registry.RegisterLib | libomptarget/src/omptarget.cpp:1195-1202 | the sorted insertion of a translation table |
| EntryCache.Registry.UnregisterLib | libomptarget/src/omptarget.cpp:1295-1313 | the loop over the host entries and the removal of the table |
| EntryCache.Registry.FindEntry | libomptarget/src/omptarget.cpp:1985-2026 | the cache probe and the nested search loops; the cache is filled on a hit |
| ArraySections.SectionIncreasing | offload/src/cean_util.cpp:77-97 | the bytes of a section come in strictly increasing order, so each occurs once |
| ArraySections.RowsContiguous | offload/src/cean_util.cpp:21-32 | unit stride over contiguous rows is one run |
| ReadRanges.FindCut | offload/src/cean_util.cpp:21-32 | the first loop of the reader set-up finds where runs are cut and how long they are |
| ReadRanges.CountRuns | offload/src/cean_util.cpp:40-56 | the second loop computes the digits, the number of runs and the first displacement |
| ReadRanges.RunsOfRow | offload/src/cean_util.cpp:77-97 | one step of a digit is a full turn of the digits inside it |
| ReadRanges.ReaderIsExact | offload/src/cean_util.cpp:17-97 | the decoded runs, concatenated, are the bytes of the section, each once, in index order |
| ReadRanges.ReaderExactIff | offload/src/cean_util.cpp:17-61 | a reader reads exactly the section if and only if a dimension is enumerated or the outermost one starts at its first index |
| ReadRanges.StartDropped | offload/src/cean_util.cpp:17-61 | a full descriptor that starts at its second byte, whose reader starts at the first |
| ReadRanges.CeanReadRanges.ArrDesc | offload/src/cean_util.cpp:17-61 | the reader built reads exactly the section under the condition of ReaderExactIff, and one run from the start of the data if every dimension is full |
| ReadRanges.CeanReadRanges.GetNextRange | offload/src/cean_util.cpp:77-97 | the k-th call returns the k-th run; after the last one false, and the reader is back at its start |
| ReadRanges.CeanReadRanges.TransferSize | offload/src/cean_util.cpp:121-124 | the transfer size is the number of bytes of a pass |
| SectionHull.HullHolds | offload/src/cean_util.cpp:227-261 | the hull contains every byte of the section and starts with its first |
| SectionHull.LastByteIff | offload/src/cean_util.cpp:227-261 | it ends with a byte of the section exactly if every stride reaches its bound |
| SectionHull.ArrDataOffsetAndLength | offload/src/cean_util.cpp:227-261 | the telescoping loops compute the hull; its last byte is in the section exactly if every stride reaches its bound |
| SectionHull.SolidSection | offload/src/cean_util.cpp:99-119 | a section that passes the contiguity test is all of its hull |
| SectionHull.SectionSize | offload/src/cean_util.cpp:99-119 | one that does not has fewer bytes than its hull, if every stride reaches its bound |
| SectionHull.IntervalIff | offload/src/cean_util.cpp:99-119 | any section is an interval exactly if it passes the test once bounds that are not reached are cut off |
| SectionHull.TestExactIff | offload/src/cean_util.cpp:99-119 | so the test is right exactly if it says yes or would not say yes for the cut bounds |
| SectionHull.SingleIndexMissed | offload/src/cean_util.cpp:99-119 | one byte selected with stride 2: an interval that the test calls non-contiguous |
| SectionHull.FullIsSolid | offload/src/cean_util.cpp:99-119 | if the test fails, some dimension is not full, so the reader has something to enumerate |
| SectionHull.IsArrDescContiguous | offload/src/cean_util.cpp:99-119 | the test: what it decides, when a section is an interval, and when its answer is right |
| RangeGenerator.AddKeeps | offload/src/cean_util.cpp:129-154 | joining or appending a range keeps the ranges separated and covers the addresses |
| RangeGenerator.Generator.GenerateOneRange | offload/src/cean_util.cpp:129-154 | the static last range and the printed ranges together grow by the new range |
| RangeGenerator.Generator.GenerateMemRangesOneRank | offload/src/cean_util.cpp:156-197 | the recursion generates the bytes of the section behind everything generated before |
| RangeGenerator.Generator.GenerateMemRanges | offload/src/cean_util.cpp:199-224 | the printed ranges are disjoint, increasing, never adjacent, and cover exactly the section |
| RangeGenerator.MaximalIsUnique | offload/src/cean_util.cpp:129-224 | there is only one such list of ranges |
| RangeGenerator.EnumeratorsAgree | offload/src/cean_util.cpp:17-224 | joining the runs of a reader whose pass is the section gives exactly the ranges a generator prints for it |
| RangeGenerator.EnumerateBoth | offload/src/cean_util.cpp:17-224 | for one descriptor, the reader that is set up and the generator that is called agree, whenever the reader is exact |
| DopeVectors.PackedIsSpan | offload/src/dv_util.cpp:13-31 | the elements of a vector with packed dimensions are one run |
| DopeVectors.GaplessIff | offload/src/dv_util.cpp:13-31 | the data of any vector is an interval exactly if it has no bytes or every dimension with two or more elements steps over what is inside it |
| DopeVectors.SingleElementMissed | offload/src/dv_util.cpp:13-31 | a single element with a multiplier of its own: an interval that the test calls non-contiguous |
| DopeVectors.IsContiguous | offload/src/dv_util.cpp:13-31 | the test is true exactly for the flag or packed dimensions; without the flag a yes is right, and a no is wrong exactly for gapless vectors |
| DopeVectors.PackedLength | offload/src/dv_util.cpp:38-52 | the data length of a packed vector is its element length times the product of its extents |
| DopeVectors.WithinLength | offload/src/dv_util.cpp:38-52 | the data of a vector that is stepped through upwards lies within its data length |
| DopeVectors.WithinLengthIff | offload/src/dv_util.cpp:38-52 | and no other data does, unless it is empty |
| DopeVectors.DvDataLength | offload/src/dv_util.cpp:38-52 | the loop computes that length |
| DopeVectors.DvReaderIsExact | offload/src/dv_util.cpp:65-99 | the runs of a dope-vector reader are its elements, each once, in index order |
| DopeVectors.InitReadRangesDv | offload/src/dv_util.cpp:65-99 | the reader made is exact if and only if the vector is not packed, or has one element outermost, or no bytes there; of a packed vector it reads one outermost element; a scalar gets none |
| DopeVectors.PackedReaderShort | offload/src/dv_util.cpp:65-99 | three packed elements, of which the reader reads the first |
| StreamCopy.NextPiece | offload/src/offload_host.cpp:2319-2345 | a piece of a stream is part of the last opened run |
| StreamCopy.DeliverBlock | offload/src/offload_host.cpp:2377-2413 | copying a block delivers its bytes in order |
| StreamCopy.DeliveredOnce | offload/src/offload_host.cpp:2294-2418 | distinct destination bytes each hold their source byte and nothing else changes |
| StreamCopy.AdvanceSource | offload/src/offload_host.cpp:2319-2341 | the source side of the loop: next run, or the rest of the last |
| StreamCopy.AdvanceDestination | offload/src/offload_host.cpp:2343-2375 | the destination side |
| StreamCopy.Stream | offload/src/offload_host.cpp:2317-2417 | the do-while loop terminates and copies the k-th source byte to the k-th destination byte; it succeeds exactly if the source is not longer and no copy fails, and otherwise has copied a first part |
| StreamCopy.Transfer | offload/src/offload_host.cpp:2308-2417 | the same from the readers at their beginning; on success the source reader is rewound, and the destination reader stands behind the runs that hold the bytes written |
| StreamCopy.SendNoncontiguousPointerData | offload/src/offload_host.cpp:2294-2418 | sending |
| StreamCopy.ReceiveNoncontiguousPointerData | offload/src/offload_host.cpp:2921-3048 | receiving |
| StreamCopy.SectionReceivesStream | offload/src/offload_host.cpp:2921-3048 | a transfer into an array section that succeeds writes its k-th byte with the k-th source byte; none writes a byte outside it |
| PointerIndex.SameMeaning | offload/src/offload_engine.h:76-81 | neither range is less exactly if they overlap or start at one address; this is not transitive |
| PointerIndex.ProbeSplits | offload/src/offload_engine.h:76-81 | on an ordered set every probe splits the entries, although the order is no weak order |
| PointerIndex.FindIsScan | offload/src/offload_engine.h:305-313 | the tree search finds what a linear scan finds, whatever the shape of the tree |
| PointerIndex.ScanFinds | offload/src/offload_engine.h:305-313 | the scan finds an entry exactly if one overlaps the probe or starts where it starts |
| PointerIndex.AddressFound | offload/src/offload_engine.h:305-313 | a zero-length probe finds the one entry that contains the address or starts there |
| PointerIndex.InsertIsScan | offload/src/offload_engine.h:315-330 | insertion keeps order and disjointness and adds the range exactly if nothing overlaps it; otherwise the last such entry stands for it |
| PointerIndex.EraseIsOutside | offload/src/offload_engine.h:332-336 | removal drops exactly the entries the probe is the same as |
| PointerIndex.RunOrdered | offload/src/offload_engine.h:305-336 | in every run of insertions and removals the set stays ordered and disjoint |
| PointerIndex.Engine.FindPtrData | offload/src/offload_engine.h:305-313 | the descent, against the scan |
| PointerIndex.Engine.InsertPtrData | offload/src/offload_engine.h:315-330 | the descent and the insertion, with the meaning of is_new |
| PointerIndex.Engine.RemovePtrData | offload/src/offload_engine.h:332-336 | the new set |
| PersistStack.DroppedExactly | offload/src/offload_host.cpp:575-611 | of a sorted list exactly the frames that were left are dropped |
| PersistStack.CallLeavesFrame | offload/src/offload_host.cpp:559-687 | a successful call leaves its own frame in front of exactly the frames above it; is_new exactly if the list lacked it |
| PersistStack.CallSucceedsIff | offload/src/offload_host.cpp:559-687 | a call succeeds exactly if its frame is there or a buffer is created for it; one that fails leaves exactly the frames above it |
| PersistStack.QueueOrder | offload/src/offload_host.cpp:575-617 | the buffers of the frames that were left go in front of the queue, that of the innermost frame last |
| PersistStack.StepConserves | offload/src/offload_host.cpp:559-687 | a call keeps the list strictly increasing, moves buffers only from the list to the queue of its offload, adds a created one once, and counts eight bytes of input per queued buffer |
| PersistStack.EventAccounts | offload/src/offload_host.cpp:559-687 | with many offloads, each with its own queue and length, every set-up, call, finish or failure keeps each buffer in exactly one place |
| PersistStack.RunAccounts | offload/src/offload_host.cpp:559-687 | so in every run: no buffer is queued or destroyed twice and none in use is queued |
| PersistStack.QueuedIff | offload/src/offload_host.cpp:575-611 | an open offload has buffers queued exactly if one of its calls found a frame that was left |
| PersistStack.OpenIff | offload/src/offload_host.cpp:2095-2180 | an offload is open exactly if it was set up and has neither finished nor failed since |
| PersistStack.LostIff | offload/src/offload_host.cpp:3265-3275 | a run loses a buffer exactly if some offload fails after one of its calls found a frame that was left |
| PersistStack.BufferLost | offload/src/offload_host.cpp:3265-3275 | a concrete run of two offloads, the second of which fails and takes the buffer of the first with it |
| PersistStack.StackManager.OffloadStackMemoryManager | offload/src/offload_host.cpp:559-687 | the new state and both results |
| PersistStack.StackManager.QueueLeft | offload/src/offload_host.cpp:575-611 | the scanning loop |
| VarTable.TableSize | offload/src/offload_table.cpp:288-306 | the nested loops return the number of entries and the size of their serial form |
| VarTable.TableCopy | offload/src/offload_table.cpp:309-332 | the copy writes exactly that many bytes: the serial form with name positions |
| VarTable.TablePatchNames | offload/src/offload_table.cpp:335-341 | patching in place gives the serial form for the buffer address |
| VarTable.ReadBack | offload/src/offload_table.cpp:309-341 | every entry of a patched buffer reads back as its name and address |
| EntryMatching.Iterator.constructor | offload/src/offload_table.h:170-172 | the iterator starts at the first named entry |
| EntryMatching.Iterator.NewNode | offload/src/offload_table.h:200-215 | moving to a node skips holes and empty tables |
| EntryMatching.Iterator.Next | offload/src/offload_table.h:174-185 | one step passes exactly one named entry |
| EntryMatching.CollectHost | offload/src/offload_engine.cpp:255-257 | walking from begin to end enumerates all named entries in order |
| EntryMatching.CompareTransitive | offload/src/offload_engine.cpp:232-248 | the order of names is transitive |
| EntryMatching.CompareEqual | offload/src/offload_engine.cpp:232-248 | it is antisymmetric, and zero exactly for equal names |
| EntryMatching.SortIsSorted | offload/src/offload_engine.cpp:316-318 | sorting permutes and orders |
| EntryMatching.Merge | offload/src/offload_engine.cpp:320-351 | the two-cursor merge enters each pair of entries with one name, and no other |
| EntryMatching.FetchTargets | offload/src/offload_engine.cpp:268-313 | the buffer that the target fills and the host patches reads back as the entries of the target tables |
| EntryMatching.SortAndMerge | offload/src/offload_engine.cpp:315-351 | with distinct names on each side sort and merge give exactly the inner join |
| EntryMatching.InitPtrData | offload/src/offload_engine.cpp:250-352 | from the tables of both sides, through the buffer and with both early returns, exactly the pairs of entries with one name are entered |
| EntryMatching.AllEntered | offload/src/offload_engine.cpp:330-343 | if the matched variables do not overlap, each gets its own entry with its partner address |
| EntryMatching.MatchedFound | offload/src/offload_engine.cpp:330-343 | so looking up any address inside a matched variable gives the address of its partner |
| EntryMatching.EntersIff | offload/src/offload_engine.cpp:330-343 | of matched variables that overlap the first one counts: a match gets its entry and keeps it exactly if none is in its way at its turn, and otherwise changes nothing |
| DependencyClosure.IsDisjoint | runtime/src/extractExternal.cpp:382-396 | the merge of two ordered sets is true exactly for disjoint ones |
| DependencyClosure.RequiredIsLeast | runtime/src/extractExternal.cpp:398-403 | the files reachable from the internal ones are the least closed set |
| DependencyClosure.FindRequiredExternal | runtime/src/extractExternal.cpp:404-434 | the worklist terminates with exactly the external files reachable from the internal ones |
| DependencyClosure.ProcessList | runtime/src/extractExternal.cpp:414-431 | one round: every waiting file is processed and the newly required ones wait for the next round |
| StringTables.DirectoryHolds | runtime/src/extractExternal.cpp:178-191 | every long name is in the directory at a position where it is stored |
| StringTables.RoundTripIff | runtime/src/extractExternal.cpp:194-233 | decode(encode(s)) is s for every NUL-free name of the set, except that the empty name does so only if the table length is a multiple of 256 |
| StringTables.LongRoundTrip | runtime/src/extractExternal.cpp:205-224 | a name of more than eight bytes comes back from the table |
| StringTables.ShortRoundTrip | runtime/src/extractExternal.cpp:197-232 | one of one to eight bytes from the symbol itself |
| StringTables.EmptyRoundTrip | runtime/src/extractExternal.cpp:217-224 | the empty name reads as the bytes of the table length |
| StringTables.EmptyNameLost | runtime/src/extractExternal.cpp:217-224 | with a table of four bytes the empty name does not come back |
| StringTables.LongDecodesIff | runtime/src/extractExternal.cpp:217-223 | four NULs and a position stand for the string at that position of the table, and for no other; a position outside it stops the program |
| StringTables.ShortDecodesIff | runtime/src/extractExternal.cpp:224-231 | any other eight bytes stand for the string they begin with |
| StringTables.EncodesIff | runtime/src/extractExternal.cpp:194-214 | a name can be encoded exactly if it is short or belongs to the table |
| StringTables.Build | runtime/src/extractExternal.cpp:159-192 | the two loops fill buffer and directory; the program stops exactly if the table is too long |
| StringTables.StringTable.DecodeName | runtime/src/extractExternal.cpp:217-232 | the decoding, against its specification |
| SymbolHiding.CollectNames | runtime/src/extractExternal.cpp:316-337 | the first pass collects exactly the new names of the primary symbols |
| SymbolHiding.HideSymbols | runtime/src/extractExternal.cpp:294-379 | both passes: primary symbols get the encoding of their new names, everything else is unchanged; when the program stops |
| SymbolHiding.RenamedDecodes | runtime/src/extractExternal.cpp:294-379 | in the written table every primary symbol decodes to its old name, prefixed exactly if it is external and hidden |
| SymbolHiding.EntryOwned | runtime/src/extractExternal.cpp:316-337 | every entry of the symbol table is a primary one or an auxiliary entry of exactly one |
| SymbolHiding.LoadedEndsIff | runtime/src/extractExternal.cpp:119-136 | a table that is read keeps its bytes and leads with its length; it ends with a NUL exactly if the file's table does or one happens to stand behind the buffer, since the copy overwrites the NUL that was added |
| SymbolHiding.LoadedNameIff | runtime/src/extractExternal.cpp:119-136 | so a name reads as in the file exactly if it ends within the file's table or a NUL happens to stand behind the buffer |
| SymbolHiding.NameRunsOn | runtime/src/extractExternal.cpp:119-136 | a concrete table whose last name comes back with a byte too many |
| SymbolHiding.WrittenLoads | runtime/src/extractExternal.cpp:120-137 | a written table reads back as it was |

## Left out

- Plugin loading, environment variables, debug output, timers, error texts: no property
  beyond plumbing.  Assertions of the source are not modelled.
- COI, MYO and ORSL: buffers are memories with a copy operation that may fail; the other
  calls succeed except where a parameter says otherwise.  Where the source ends the program
  on a failed copy, the model returns failure.
- A failed copy leaves the bytes it did not copy as they were; garbage is not modelled.
- Mutexes: every locked method is one step.
- `setup_descriptors`, `gather_copyin_data`, `scatter_copyin_data` and
  `gen_var_descs_for_pointer_array`: what they guarantee to the transfer loops is stated
  as `Prepared`.
- Register and load of images, constructors and destructors, and the global entries that
  `InitLibrary` enters with an infinite count.
- The encoding of map types in a flag word: `MapType` is a record of its bits, with the
  member index as a number; the truncation of that index to `short` is not modelled.
- Wrap-around of 64-bit addresses and sizes and the narrower `int` counters: addresses and
  counts are integers.  Pointer slots do hold 64-bit values.
- `omp_target_memcpy_rect` with an outer volume of zero, where the return code is never
  set: excluded by `ShapeOk`.
- The dimension array of a reader and the list of variable tables are sequences.
- The red-black balancing of `std::set` and `std::map`: search holds for every shape of the
  tree, insertion adds a leaf.
- `std::sort` is insertion sort; only that it permutes and orders is used.
- Reference counters and locks of `PtrData`, adding and removing tables from the lists.
- Failures of buffer creation in the stack manager are one case; a buffer that is created
  but cannot be made valid on the device is lost in the source and not counted here.
- COFF file reading: object files are sequences of symbol entries and a string table.  The
  directory of a table that was read is left empty, since it is never consulted.
- SymbolHiding.LoadedNameIff: tables of the greatest 32-bit length are left out; reading
  stops at the end of the table, where the source would read on to the next NUL.
- `strncpy_s` of the Windows build may refuse a name of exactly eight characters; the model
  follows `strncpy`.
- Transparency.OffloadTransparency: kernels that follow pointers inside their parameters are
  not covered; `ShadowPointers` covers what regions and updates do to such pointers.
- DeviceContents.SectionLoaded: the premise that no later transfer wrote over the byte is
  about the log of the call; where sections are disjoint it follows from their addresses
  (`TranslationInjective`), which is not spelled out for lists.
- EntryCache.StepConsistent: calls with one key must agree on the entries, which are a
  library's static data.
- MemcpyRect.Devices.OmpTargetMemcpyRect: within one memory the two boxes must be disjoint,
  as the source's use of `memcpy` demands.
