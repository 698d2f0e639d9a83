# SimpleSSD, modelled and proved in Dafny

SimpleSSD simulates a solid-state drive: a host interface with a credit scheduler, a write-back cache, a
page-mapping flash translation layer, and the addressing of a flash array. This project models the state
machines and the address arithmetic at its core and proves what they keep over whole runs.

`dafny verify dfyconfig.toml` checks everything.

- **Translation layer** (`Ftl*.dfy`, `FlashBlock.dfy`, `PageMapping.dfy`). States are values, every routine of
  the source is a total function whose `panic`s are explicit faults, and every physical unit carries the host data
  last programmed into it. The main theorem is a refinement: any run of writes, trims and garbage collections
  behaves like a plain map from (LPN, unit) to data. The classes `FlashBlock` and `PageMapping` have the source's
  fields and loops and are proved to compute exactly those functions.
- **Credit scheduler** (`Credit*.dfy`). Books of accounts, queues and a log of everything that left; every
  operation keeps them balanced, and grants stay within the configured rate, over the whole run and over every
  window of it; resets can move the rate by an exact amount.
- **Cache** (`WriteBack.dfy`, `GenericCache.dfy`, `IclWrites.dfy`, `CacheRead.dfy`). What a reader sees through the cache, and that
  the write path loses nothing. `Layers.dfy` joins the cache and the translation layer: through both, a reader gets
  the data last written.
- **Addresses and ranges** (`FlashAddress.dfy`, `FlashConversion.dfy`, `Bits.dfy`, `OpenChannelAddress.dfy`,
  `FlashCoordinates.dfy`, `NamespaceRanges.dfy`, `Subsystem.dfy`, `PageTiling.dfy`, `Arithmetic.dfy`). Bijections, exact complements and tilings.
- **Smaller machines and codecs** (`WriteFifo.dfy`, `DmaFifo.dfy`, `ChunkStates.dfy`, `Base64.dfy`).

## Where the code does not do what it promises

Each of these has a concrete input and the exact condition under which the promise holds.

- Garbage collection may erase the block of an active slot, because victims are only required to be full; the next
  write to that slot panics (`FtlExamples.CollectionStrandsActiveBlock`, condition in `FtlSlots.HealthAfterCollect`).
- With one I/O unit per page, garbage collection revives overwritten data
  (`FtlSingleUnit.TwoWritesLoseTheSecond`, condition in `FtlSingleUnit.SingleUnitCollectIsSoundIff`).
- On such a device garbage collection also panics on a stale page whose LPN has been trimmed
  (`FtlOrphans.TrimThenWritePanics`, condition in `FtlOrphans.SingleUnitCollectFaults`).
- Trimming a logical page of which only some units are mapped panics
  (`FtlExamples.TrimOfPartlyWrittenPagePanics`, condition in `FtlWrite.TrimIsHostTrim`).
- `resetStatValues` while the refill timer runs restarts the phases at tick 0, so pages are granted beyond the rate
  (`CreditResets.ResetGrantsPagesInNoTime`, condition in `CreditTime.PhasesFitIffNoLiveReset`, the excess in
  `CreditTime.GrantsWithinRateAndRewinds`).
- The cap of an account does not limit what a best-effort user saves up, because what exceeds it is carried
  (`CreditBurst.CarryOutgrowsCap`, `CreditBurst.BurstOfCaps`, condition in `CreditBurst.CarryIsFractionIff`, the bound that does
  hold in `CreditWindow.WindowGrants`).
- A read miss that evicts a dirty line loses it (`CacheRead.ReadLosesPartialWrite`, condition in
  `CacheRead.ReadMissKeepsDirtyIffCleanVictim`).
- With write caching off and read caching on, a write leaves a stale line
  (`CacheRead.WriteAroundLeavesStaleLine`, condition in `WriteBack.AroundIsSeenUnlessCached`).
- `makeLBA` shifts 32-bit numbers, so addresses wider than 32 bits do not survive
  (`OpenChannelAddress.WideAddressesFail`, on every such device; condition in `OpenChannelAddress.RoundTripIff32Bits`).
- Chunks are declared to be written sequentially, but a write command accepts gaps
  (`ChunkStates.FreshChunkAcceptsGap`, condition in `ChunkStates.NoGapsIffSequential`) and, for chunk sizes that are not a
  power of two, pages beyond the end (`ChunkStates.FreshChunkAcceptsPageBeyondEnd`, conditions in
  `ChunkStates.MatchesIffWithin` and `ChunkStates.FieldStaysInsideIff`).
- An erase command marks chunks free that it does not erase when an earlier entry is refused
  (`ChunkStates.EraseAfterErrorIsLost`, condition in `ChunkStates.MarkedFreeIsErasedIff`).
- Refused entries behind the 64 bits of the response mask still reach the flash (`ChunkStates.RefusedStaysOutIff`,
  `ChunkStates.RefusedIsNotErasedIff`).
- The identifier of a new namespace is chosen before its data arrives, so two create commands can get the same one
  (condition in `Subsystems.Subsystem.CreateByCommand`).
- The size that `decode` reports wraps around for an input of two or three characters that ends in padding (condition in
  `Base64.Decode`).
- `createNamespace` uses a range left over from an earlier call when no run of pages fits
  (`Subsystems.StaleRangeOverlaps`, condition in `Subsystems.Subsystem.Create`; `Subsystems.Subsystem.Initialize` shows that
  the one caller that passes such a range never gets there).
- Namespace creation and deletion count pages differently (`NamespaceRanges.AccountsDrift`, condition in
  `NamespaceRanges.AccountsMatchIff`).

The merge loop of `createNamespace` (hil/nvme/subsystem.cc:239-260) ends at once, so the model has none. The comment of
the base 64 decoding table places 'a' at 98; the table itself has it at 97, which is right.

## Model

| member | source | states |
|---|---|---|
| `FtlRun.FreshDevice` | ftl/page_mapping.cc:33-64 | A new device satisfies the invariant, every active slot has its own block, and the host sees nothing. |
| `FtlInvariant.AcquireOutcome` | ftl/page_mapping.cc:349-379 | getLastFreeBlock panics "Corrupted" exactly if the active block at the rotated slot is not in use, and "No free block left" exactly if that block is full and the free list is empty; nothing else. |
| `FtlInvariant.TakeFreeKeeps` | ftl/page_mapping.cc:305-347 | getFreeBlock on a non-empty list takes one blank block, keeps in-use, free and retired blocks a partition and the list sorted by wear. |
| `FtlInvariant.AcquireKeeps` | ftl/page_mapping.cc:349-379 | The block handed out is in use and has an erased page in every unit; mapping and contents are untouched; a replaced slot gets a block that was not in use; the request moves to the next slot exactly if a unit it asks for was asked for at the current one, or without the random-I/O tweak. |
| `FtlInvariant.TakenFitsSlot` | ftl/page_mapping.cc:312-330 | The block taken for a slot is the first free one congruent to it, and the first free one if none is. |
| `FtlRotation.AcquireTurns` | ftl/page_mapping.cc:350-361 | Which slot a request goes to and which units are recorded at it, from the slot and the units before. |
| `FtlRotation.FullPagesVisitEverySlotOnce` | ftl/page_mapping.cc:350-361 | As many full-page requests in a row as there are slots visit every slot exactly once. |
| `FtlRotation.SlotServesUnitOnce` | ftl/page_mapping.cc:350-361 | Between two moves no unit is asked for twice at a slot. |
| `FtlRotation.RecordedWasAsked` | ftl/page_mapping.cc:350-361 | And a unit recorded at a slot was asked for since the last move. |
| `FtlRotation.WriteTurns` | ftl/page_mapping.cc:674-760 | A host write moves over the slots by that rule, once. |
| `FtlPlacement.UnitsInUse` | ftl/page_mapping.cc:62 | Without the random-I/O tweak only unit 0 of a page is mapped, with it every unit on its own. |
| `FtlPlacement.WritePlaces` | ftl/page_mapping.cc:700-760 | A write puts exactly its units into the block of its slot, each at its own write pointer; no other table entry and no other write pointer changes. |
| `FtlPlacement.CollectsIff` | ftl/page_mapping.cc:788-812 | A write starts a collection exactly if it leaves fewer free blocks than the threshold share of all blocks. |
| `FtlPlacement.ReclaimsFor` | ftl/page_mapping.cc:421-450 | A collection is asked for a fixed number of blocks, or for the most that keep the free blocks within the ratio; and for one more per slot after a replacement. |
| `FtlInvariant.RoomyIffNotFull` | ftl/common/block.cc:240-254 | A block has room in every unit if and only if its largest write pointer is not at the end. |
| `FtlInvariant.ProgrammedStaysDisciplined` | ftl/common/block.cc:294-335 | Programming at the write pointer keeps "erased exactly from the write pointer on", so no unit is programmed twice between erases. |
| `FtlInvariant.InvalidateOpensHole` | ftl/common/block.cc:356-363 | Invalidating the unit a table entry points at leaves exactly one entry without a valid unit; every other entry and valid unit stay matched. |
| `FtlInvariant.ProgramFillsHole` | ftl/page_mapping.cc:734-760 | Programming a unit and pointing the table at it fills exactly that hole; both "Block::write" panics are unreachable. |
| `FtlCollect.ErasedStaysDisciplined` | ftl/common/block.cc:337-354 | An erased block is blank, keeps the page discipline and is worn once more. |
| `FtlWrite.WriteIsHostWrite` | ftl/page_mapping.cc:674-760 | writeInternal fails exactly in two situations computed from the state before it; otherwise the invariant holds and the host view changes in the flagged units of its LPN and nowhere else. |
| `FtlWrite.TrimIsHostTrim` | ftl/page_mapping.cc:814-842 | trimInternal panics exactly if the LPN has an unmapped unit; otherwise it removes that LPN from the host view and changes nothing else. |
| `FtlCollect.MoveOne` | ftl/page_mapping.cc:539-577 | Moving one valid unit keeps the table and the valid bits inverse to each other and what the host sees. |
| `FtlCollect.CopyPageKeeps` | ftl/page_mapping.cc:518-581 | Copying a page of a full victim that getPageInfo reports as it is never picks the victim as destination, leaves no valid unit in the page, touches no other page of a full block, and changes nothing for the host. |
| `FtlCollect.CopyVictimsKeeps` | ftl/page_mapping.cc:511-581 | Copying distinct full victims whose pages are reported as they are leaves every victim without a valid unit, and can only run out of blocks or meet a stranded slot. |
| `FtlCollect.EraseOutcome` | ftl/page_mapping.cc:844-894 | eraseInternal panics exactly if the block holds a valid unit, and fails on an empty free list exactly if the block holds none and is not worn out; the free list grows by one exactly for blocks that are not worn out. |
| `FtlCollect.EraseBlockKeeps` | ftl/page_mapping.cc:844-894 | An erased block goes back to its place in the wear-sorted free list or is retired; in-use, free and retired blocks stay a partition. |
| `FtlGarbage.CollectIsInvisible` | ftl/page_mapping.cc:493-619 | A whole collection of victims whose pages are reported as they are (always so with several units per page) keeps the invariant and the host view; "There are valid pages in victim block" and "Invalid mapping table entry" cannot occur. |
| `FtlSlots.CopyVictimsPaid` | ftl/page_mapping.cc:511-581 | Amortised count: blocks taken during copying are paid for by live pages, counted against the fill of the active blocks. |
| `FtlBudget.CopyTakesLivePages` | ftl/page_mapping.cc:511-581 | Blocks taken by copying, in pages, are at most the live pages of the victims plus one block for each active slot. |
| `FtlBudget.CollectGains` | ftl/page_mapping.cc:493-619 | Progress: a collection leaves at least as many more free blocks as victims that are not worn out, less the blocks its live pages fill and one for each active slot. |
| `FtlBudget.CopyTakesAtMost` | ftl/page_mapping.cc:511-581 | Copying v full victims takes at most v + pageCountToMaxPerf blocks from the free list. |
| `FtlBudget.CollectSucceeds` | ftl/page_mapping.cc:493-619 | With that many free blocks and every active slot on a block in use, a collection does not fail. |
| `FtlSlots.HealthAfterCollect` | ftl/page_mapping.cc:349-379 | After a collection every active slot is on a block in use if and only if each slot that held a victim was visited while copying; the visited slots are computed before it runs. |
| `FtlRun.StepRefines` | ftl/page_mapping.cc:204-234 | One host request, with the collection it triggers, refines one step of a plain map from (LPN, unit) to data as long as the collection meets no misreported page; only four faults are reachable. |
| `FtlRun.SeveralUnitsRunTruthfully` | ftl/common/block.cc:256-272 | With several units per page no run ever meets a misreported page. |
| `FtlRun.RunRefines` | ftl/page_mapping.cc:493-842 | The same for any run of writes, trims and collections. |
| `FtlRun.ReadsLastWritten` | ftl/page_mapping.cc:621-672 | After any run from a new device, reading (LPN, unit) gives the last value written there and not trimmed since; with one unit per page, if no collection of the run met a stale page. |
| `FtlHealth.StepStaysHealthy` | ftl/page_mapping.cc:788-812 | A request leaves every active slot on a block in use if and only if its collection spares the slots it does not visit. |
| `FtlHealth.SparingRunIsNeverCorrupted` | ftl/page_mapping.cc:349-379 | Over a whole run of such requests the "Corrupted" panic is unreachable. |
| `FtlHealth.CoveredStepSucceeds` | ftl/page_mapping.cc:204-234 | A request with enough free blocks on a device in that condition does not fail. |
| `FtlHealth.CoveredRunSucceeds` | ftl/page_mapping.cc:204-234 | A run of such requests never panics, keeps its active slots and shows the host exactly what it wrote. |
| `FtlExamples.CollectionStrandsActiveBlock` | ftl/page_mapping.cc:382-420 | Victim selection does not exclude active blocks: a legal write on a new small device erases the block of an active slot. |
| `FtlExamples.StrandPanics` | ftl/page_mapping.cc:363-370 | The next write that reaches that slot panics "Corrupted". |
| `FtlExamples.TrimOfPartlyWrittenPagePanics` | ftl/page_mapping.cc:814-842 | New device, one unit of a page written, the page trimmed: "Block is not in use". |
| `FtlSingleUnit.StaleCopyMakesTwins` | ftl/common/block.cc:256-272 | With one unit per page, copying a stale page leaves two pages that both claim to be the valid copy of one LPN. |
| `FtlSingleUnit.CopyVictimsTwins` | ftl/page_mapping.cc:511-581 | The rest of the copying never removes such twins. |
| `FtlSingleUnit.EraseTwins` | ftl/page_mapping.cc:844-894 | Neither does erasing, which checks for valid units first. |
| `FtlSingleUnit.ReachableIsMapped` | ftl/page_mapping.cc:674-760 | On a device with one unit per page every table entry is mapped after any run. |
| `FtlSingleUnit.SingleUnitCollectIsSoundIff` | ftl/page_mapping.cc:493-619 | On such a device a collection keeps the mapping and the host view if and only if every page of every victim is still valid, because getPageInfo ignores the valid bit. |
| `FtlOrphans.SingleUnitCollectFaults` | ftl/page_mapping.cc:511-581 | Every fault a collection of full blocks can end in on such a device. It never succeeds if a page of a victim carries a trimmed LPN; with intact active blocks and a free block for every page it panics "Invalid mapping table entry" if and only if there is such a page, and with one more free block it succeeds if and only if there is none. |
| `FtlOrphans.SingleUnitStepFaults` | ftl/page_mapping.cc:204-234 | The same for a host request and whatever victims it is given. |
| `FtlOrphans.CopyPageSturdy` | ftl/page_mapping.cc:518-581 | Copying one page: its faults, and what it keeps even when the mapping is already spoilt. |
| `FtlOrphans.TrimThenWritePanics` | ftl/page_mapping.cc:545-552 | Write, trim and another write on a new device: the collection that the greedy policy chooses panics. |
| `FtlSingleUnit.SingleUnitStepIsSoundIff` | ftl/page_mapping.cc:204-234 | So a host request refines the host map if and only if its collection meets no stale page. |
| `FtlSingleUnit.SingleUnitCollectionLosesUpdate` | ftl/common/block.cc:256-272 | A concrete state in which collecting a stale block brings an overwritten value back. |
| `FtlSingleUnit.TwoWritesLoseTheSecond` | ftl/page_mapping.cc:204-220 | Two writes of one page on a new device, with a collection that the greedy policy chooses: the first value is back. |
| `FtlCount.ValidUnitsAreMappedUnits` | ftl/common/block.cc:206-220 | The sum of getValidPageCountRaw over all blocks is the number of mapped (LPN, unit) pairs. |
| `FlashBlocks.NoLivePages` | ftl/common/block.cc:189-204 | A block has a live page if and only if some unit of it is valid. |
| `FlashBlocks.FlashBlock.constructor` | ftl/common/block.cc:29-66 | A new block is blank. |
| `FlashBlocks.FlashBlock.Write` | ftl/common/block.cc:294-335 | Sets the valid and erased bits, the LPN and the write pointer of one unit, or reports which check failed and changes nothing. |
| `FlashBlocks.FlashBlock.Erase` | ftl/common/block.cc:337-354 | Every unit becomes erased and invalid, write pointers return to 0, the erase count grows. |
| `FlashBlocks.FlashBlock.Invalidate` | ftl/common/block.cc:356-363 | Clears one valid bit and nothing else. |
| `FlashBlocks.FlashBlock.GetNextWritePageIndex` | ftl/common/block.cc:240-250 | The largest write pointer. |
| `FlashBlocks.FlashBlock.GetPageInfo` | ftl/common/block.cc:256-272 | The bit map and LPNs of a page, all ones for a single unit. |
| `FlashBlocks.FlashBlock.GetValidPageCount` | ftl/common/block.cc:189-204 | The number of pages with a valid unit. |
| `FlashBlocks.FlashBlock.GetValidPageCountRaw` | ftl/common/block.cc:206-220 | The number of valid units. |
| `PageMappings.PageMapping.constructor` | ftl/page_mapping.cc:33-64 | Builds the free list and opens one block per active slot: the object stands for the new device of FtlRun. |
| `PageMappings.PageMapping.GetFreeBlock` | ftl/page_mapping.cc:305-347 | The object form of taking a free block, with the same faults. |
| `PageMappings.PageMapping.GetLastFreeBlock` | ftl/page_mapping.cc:349-379 | The object form of choosing a destination, with the same faults and the same move over the slots, stated on the fields. |
| `PageMappings.PageMapping.WriteInternal` | ftl/page_mapping.cc:674-760 | The loops over the units compute exactly the write step about which the refinement is proved. |
| `PageMappings.PageMapping.TrimInternal` | ftl/page_mapping.cc:814-842 | The same for trim. |
| `PageMappings.PageMapping.ReadInternal` | ftl/page_mapping.cc:621-672 | Visits exactly the mapped selected units; each lies in a block in use and is valid. |
| `PageMappings.PageMapping.CopyVictimPage` | ftl/page_mapping.cc:518-581 | The inner loops of the collection, one victim page. |
| `PageMappings.PageMapping.EraseInternal` | ftl/page_mapping.cc:844-894 | Reverse search of the free list, insertion or retirement. |
| `PageMappings.PageMapping.DoGarbageCollection` | ftl/page_mapping.cc:493-619 | The nested loops compute exactly the collection step. |
| `PageMappings.PageMapping.RankCandidates` | ftl/page_mapping.cc:382-420 | Greedy weights: every full block, once, in increasing number of valid units. |
| `PageMappings.PageMapping.SelectVictimBlock` | ftl/page_mapping.cc:421-491 | As many victims as the mode asks for, or all there are: distinct full blocks, and no full block left out has fewer valid units than a chosen one. |
| `PageMappings.PageMapping.HostWriteRequest` | ftl/page_mapping.cc:204-220 | A host write with the collection test after it: the run step of FtlRun. |
| `PageMappings.PageMapping.HostTrimRequest` | ftl/page_mapping.cc:222-233 | A host trim: the run step of FtlRun. |
| `PageMappings.PageMapping.CalculateWearLeveling` | ftl/page_mapping.cc:896-927 | Because the free list is sorted by wear, the scan that stops at the first unworn block gives the sums of a full scan. |
| `CreditMath.SloGrantsWithinBudget` | hil/scheduler/credit_scheduler.cc:337-372 | Grants to guaranteed users never exceed the whole pages of the phase budget, also when demands are scaled down. |
| `CreditMath.AfterPhaseIsSound` | hil/scheduler/credit_scheduler.cc:261-446 | A phase never takes credit away, never passes the cap and touches only credit and carry of active accounts. |
| `CreditMath.PhaseBalances` | hil/scheduler/credit_scheduler.cc:261-446 | Grants plus new carries equal guaranteed grants plus the spill plus old carries, exactly. |
| `CreditMath.PhaseWithinBudget` | hil/scheduler/credit_scheduler.cc:261-446 | One phase hands out, and moves into best-effort carries, at most pagesPerPeriod. |
| `CreditMath.PhaseGivesEverything` | hil/scheduler/credit_scheduler.cc:284-428 | Unless guaranteed users are overloaded, a phase with active best-effort users hands out, or carries over, exactly the whole budget. |
| `CreditDelivery.CapIs` | hil/scheduler/credit_scheduler.cc:628-630 | The cap is two thousand phases worth of pages, at least fifty. |
| `CreditDelivery.TargetIsMet` | hil/scheduler/credit_scheduler.cc:311-372 | In a phase in which all demands fit, a guaranteed user gets its target exactly, up to a fraction carried on, unless its cap stops it. |
| `CreditDelivery.RateIsMetOverPhases` | hil/scheduler/credit_scheduler.cc:311-372 | So over any number of such phases a user with a rate target gets that rate, up to a fraction of a page. |
| `CreditDelivery.SharesAreTheBudget` | hil/scheduler/credit_scheduler.cc:311-330 | Without targets the shares of the guaranteed users are the whole budget. |
| `CreditDelivery.OverloadIsShared` | hil/scheduler/credit_scheduler.cc:348-378 | When demands exceed the budget, each guaranteed user gets its proportional part of the whole pages, rounded down, or fills its cap; nothing spills. |
| `CreditInvariant.SubmitKeeps` | hil/scheduler/credit_scheduler.cc:82-132 | Submitting keeps the ledger invariant; the request is in exactly one place. |
| `CreditInvariant.TakeKeeps` | hil/scheduler/credit_scheduler.cc:831-848 | useCredit and useCreditISC charge what they take and keep the ledger. |
| `CreditInvariant.SubmitIscKeeps` | hil/scheduler/credit_scheduler.cc:967-1019 | In-storage work is paid for and done, or waits. |
| `CreditInvariant.DrainAdminKeeps` | hil/scheduler/credit_scheduler.cc:249-258 | All admin requests leave first and uncharged. |
| `CreditInvariant.DrainAdminLeavesInOrder` | hil/scheduler/credit_scheduler.cc:249-258 | Admin requests leave in order, before anything else of the tick, and no account changes. |
| `CreditInvariant.PhaseKeeps` | hil/scheduler/credit_scheduler.cc:261-446 | A refill phase keeps all accounts, balances and the bound on grants. |
| `CreditInvariant.ResumeKeeps` | hil/scheduler/credit_scheduler.cc:447-472 | A pass over the deferred requests keeps the books: what leaves is charged once. |
| `CreditInvariant.RunCallbacksKeeps` | hil/scheduler/credit_scheduler.cc:474-499 | The same for deferred callbacks. |
| `CreditInvariant.RunIscKeeps` | hil/scheduler/credit_scheduler.cc:1021-1053 | The same for waiting in-storage requests. |
| `CreditInvariant.TryHeadKeeps` | hil/scheduler/credit_scheduler.cc:136-163 | Dispatching or deferring the head of a queue keeps the books and loses nothing. |
| `CreditInvariant.ScanKeeps` | hil/scheduler/credit_scheduler.cc:510-570 | A round-robin round keeps the ledger whatever it serves. |
| `CreditCharges.PagesCover` | hil/scheduler/credit_scheduler.cc:138 | A request costs the least number of pages of 4096 bytes that holds it. |
| `CreditCharges.HeadServedIff` | hil/scheduler/credit_scheduler.cc:136-163 | The head of a queue is served exactly if its bytes fit in the pages of the credit, costs the fewest pages that hold it and is booked to the right class; otherwise it is deferred; nobody else is touched. |
| `CreditCharges.BytesArePaid` | hil/scheduler/credit_scheduler.cc:136-163 | Bytes served fit in the pages charged for them, and the charge exceeds the bytes by less than a page for each request. |
| `CreditCharges.LedgerPaysForBytes` | hil/scheduler/credit_scheduler.cc:82-583 | After any run, callbacks included: bytes served to a user are at most 4096 times what it consumed, and only admin requests with bytes in them leave free. |
| `CreditCharges.SubmitPlaces` | hil/scheduler/credit_scheduler.cc:82-132 | Where a request waits: admin, gates in front of the in-storage queue, the rest behind the host queue; the user becomes active without credit. |
| `CreditCharges.TakePays` | hil/scheduler/credit_scheduler.cc:831-848 | A direct charge takes what is asked for or all there is. |
| `CreditCharges.SubmitIscRunsIff` | hil/scheduler/credit_scheduler.cc:967-1019 | In-storage work runs at once exactly if the credit there is pays for it, and otherwise waits behind the rest. |
| `CreditCharges.ResetClears` | hil/scheduler/credit_scheduler.cc:772-791 | What a reset takes away, and what it leaves. |
| `CreditCharges.NewUserIs` | hil/scheduler/credit_scheduler.cc:612-645 | What a new user starts with. |
| `CreditCharges.TargetIsSet` | hil/scheduler/credit_scheduler.cc:1119-1140 | Setting a target changes the mode, and the rate exactly if it is a rate. |
| `CreditTurns.ChosenLastIsVisitedLast` | hil/scheduler/credit_scheduler.cc:510-530 | A round starts behind the user chosen last and comes to it last. |
| `CreditTurns.RoundServesFirst` | hil/scheduler/credit_scheduler.cc:510-570 | A round serves the first user in turn who can pay, and nobody exactly if nobody can. |
| `CreditTurns.PayableMovesUp` | hil/scheduler/credit_scheduler.cc:510-570 | A user who can pay is served, or can still pay and is further to the front in the next round. |
| `CreditTurns.PayableIsServedInTime` | hil/scheduler/credit_scheduler.cc:510-570 | So it is served within as many rounds as users were in front of it: no starvation. |
| `CreditTurns.RoundServesIff` | hil/scheduler/credit_scheduler.cc:573-579 | A dispatch serves somebody exactly if somebody can pay, in-storage requests first. |
| `CreditTurns.DeferredLeaveIffPayable` | hil/scheduler/credit_scheduler.cc:447-472 | In a pass exactly the deferred requests leave that can be paid at their turn; the others keep their order. |
| `CreditTurns.CallbacksRunIffPayable` | hil/scheduler/credit_scheduler.cc:474-499 | The same for callbacks. |
| `CreditTurns.IscRunIffPayable` | hil/scheduler/credit_scheduler.cc:1021-1053 | And for waiting in-storage requests. |
| `CreditTurns.TickLeaves` | hil/scheduler/credit_scheduler.cc:213-583 | What leaves in a tick, and in which order; at most 4096 queued requests are dispatched, and fewer only when nobody can pay any more. |
| `CreditRun.ResetKeeps` | hil/scheduler/credit_scheduler.cc:772-791 | resetStatValues keeps the invariant; what it discards leaves the books, host queues and deferred requests stay. |
| `CreditRun.LedgerAfterAnyRun` | hil/scheduler/credit_scheduler.cc:82-583 | After any interleaving of submissions, charges, ticks and resets: credit is at most the cap, credit plus consumption equals grants since the last reset, consumption equals the charges logged, all grants fit in pagesPerPeriod times the phases run, and every request waits in exactly one place or has left. |
| `CreditTime.RefillRunsDuePhases` | hil/scheduler/credit_scheduler.cc:260-446 | The refill loop runs one phase for every period boundary passed, however late it is called. |
| `CreditTime.TickRunsDuePhases` | hil/scheduler/credit_scheduler.cc:213-446 | A tick runs exactly the phases due at the time after its admin requests. |
| `CreditTime.StepMovesGrid` | hil/scheduler/credit_scheduler.cc:82-163 | The start of the timer creates the grid of phases, a reset while the timer runs moves it back by exactly the time of the next phase, and no other operation changes it. |
| `CreditTime.GridAfterRun` | hil/scheduler/credit_scheduler.cc:260-446 | After any run the grid begins when the timer was started, moved back by the resets since. |
| `CreditTime.GrantsWithinRateAndRewinds` | hil/scheduler/credit_scheduler.cc:260-446 | Any run, resets included: pages granted by a time are at most the configured rate times the time since the operation that started the timer, plus exactly what resets moved the phases back. |
| `CreditTime.GrantsWithinRate` | hil/scheduler/credit_scheduler.cc:260-446 | Without a reset while the timer runs, pages granted by a time are at most the configured rate times the time since the operation that started the timer. |
| `CreditTime.PhasesFitIffNoLiveReset` | hil/scheduler/credit_scheduler.cc:772-791 | The phases behind a tick fit in the time since the timer was started if and only if no reset found the timer running. |
| `CreditResets.ResetReplaysPhases` | hil/scheduler/credit_scheduler.cc:772-791 | A tick directly after a reset with the timer running replays every boundary since tick 0, and grants nothing because no account is active. |
| `CreditResets.IdleTick` | hil/scheduler/credit_scheduler.cc:260-446 | A tick that finds no active account grants nothing. |
| `CreditResets.QuietResetsKeepTheRate` | hil/scheduler/credit_scheduler.cc:772-791 | The rate also holds over runs with resets if no tick after them finds an active account. |
| `CreditResets.ResetGrantsPagesInNoTime` | hil/scheduler/credit_scheduler.cc:772-791 | One page per tick; submit, reset, submit and tick at tick T: T + 1 pages are granted while no time has passed since the timer was started. |
| `CreditReentry.TickReaches` | hil/scheduler/credit_scheduler.cc:213-583 | A tick without callbacks is a run of single passes of its loops, none of them a whole operation. |
| `CreditWindow.WindowGrants` | hil/scheduler/credit_scheduler.cc:260-446 | From any state the books allow and whatever happens next, callbacks included: pages granted from there on are at most the budgets of the phases run from there on plus what accounts carry there. |
| `CreditWindow.WindowRate` | hil/scheduler/credit_scheduler.cc:260-446 | In time: with the timer running and no reset in the window, they are at most the rate over the window, begun one period before the next phase, plus that carry. |
| `CreditWindow.RunIsMicroRun` | hil/scheduler/credit_scheduler.cc:82-583 | A run of whole operations is a run with no callbacks, so both results cover it. |
| `CreditBurst.CarryOutgrowsCap` | hil/scheduler/credit_scheduler.cc:408-425 | An idle active user owns the budgets of all n phases: its credit is their sum cut at the cap, and the rest is carried, for every n. |
| `CreditBurst.BurstOfCaps` | hil/scheduler/credit_scheduler.cc:408-425 | Once it has saved k + 1 caps, it gets a full cap in each of k phases in a row. |
| `CreditBurst.CarryIsFractionIff` | hil/scheduler/credit_scheduler.cc:414-419 | The carry after a phase is less than a page if and only if the whole pages due fit below the cap. |
| `CreditReentry.LedgerUnderReentry` | hil/scheduler/credit_scheduler.cc:447-583 | The ledger holds over any run of those steps mixed with whole operations, so also when callbacks re-enter the scheduler. |
| `CreditDemands.DemandsAreComplete` | hil/scheduler/credit_scheduler.cc:311-346 | The demand list holds every guaranteed user exactly once. |
| `CreditDemands.GrantsOfDemands` | hil/scheduler/credit_scheduler.cc:348-378 | The grants on the list add up to the grants over all users. |
| `CreditDemands.SecondHalf` | hil/scheduler/credit_scheduler.cc:408-428 | Sharing the spill completes a phase and touches best-effort accounts only. |
| `CreditScheduler.Scheduler.constructor` | hil/scheduler/credit_scheduler.cc:24-70 | Rate and period as configured; three accounts, no credit, timer off. |
| `CreditScheduler.Scheduler.GetOrCreateUser` | hil/scheduler/credit_scheduler.cc:612-645 | Opens an account with the common cap if there is none. |
| `CreditScheduler.Scheduler.SubmitRequest` | hil/scheduler/credit_scheduler.cc:82-132 | Queues and activation as in the ledger operation. |
| `CreditScheduler.Scheduler.UseCredit` | hil/scheduler/credit_scheduler.cc:831-848 | Takes at most what is there. |
| `CreditScheduler.Scheduler.SubmitIscDeferred` | hil/scheduler/credit_scheduler.cc:198-210 | Appends one deferred callback. |
| `CreditScheduler.Scheduler.SubmitIscRequest` | hil/scheduler/credit_scheduler.cc:967-1019 | Refuses a null context, otherwise pays and executes or waits. |
| `CreditScheduler.Scheduler.SetUserIopsTarget` | hil/scheduler/credit_scheduler.cc:1119-1128 | Sets mode and target of one account. |
| `CreditScheduler.Scheduler.SetUserTailTarget` | hil/scheduler/credit_scheduler.cc:1130-1140 | Sets the mode of one account and leaves its target alone. |
| `CreditScheduler.Scheduler.ResetStatValues` | hil/scheduler/credit_scheduler.cc:772-791 | Clears accounts, admin and in-storage queues. |
| `CreditScheduler.Scheduler.DispatchAdmin` | hil/scheduler/credit_scheduler.cc:249-258 | The admin loop. |
| `CreditScheduler.Scheduler.CollectDemands` | hil/scheduler/credit_scheduler.cc:311-346 | First pass over guaranteed users. |
| `CreditScheduler.Scheduler.DecideGrants` | hil/scheduler/credit_scheduler.cc:348-378 | Second pass: full or scaled grants. |
| `CreditScheduler.Scheduler.GrantGuaranteed` | hil/scheduler/credit_scheduler.cc:284-402 | All passes over guaranteed users are the first half of a phase, and the spill is what remains of the whole budget. |
| `CreditScheduler.Scheduler.ShareSpill` | hil/scheduler/credit_scheduler.cc:408-428 | The best-effort loop completes the phase. |
| `CreditScheduler.Scheduler.RefillPhase` | hil/scheduler/credit_scheduler.cc:261-446 | One pass of the refill loop is one phase of the ledger. |
| `CreditScheduler.Scheduler.RefillDue` | hil/scheduler/credit_scheduler.cc:260-446 | The refill loop. |
| `CreditScheduler.Scheduler.ResumeDeferred` | hil/scheduler/credit_scheduler.cc:447-472 | Every deferred request gets one chance, in order. |
| `CreditScheduler.Scheduler.ResumeCallbacks` | hil/scheduler/credit_scheduler.cc:474-499 | Every deferred callback gets one chance, in order. |
| `CreditScheduler.Scheduler.ProcessIscRequests` | hil/scheduler/credit_scheduler.cc:1021-1053 | Every waiting in-storage request gets one chance, in order. |
| `CreditScheduler.Scheduler.TryDispatch` | hil/scheduler/credit_scheduler.cc:136-163 | Serves or defers the head of one queue. |
| `CreditScheduler.Scheduler.TryDispatchClass` | hil/scheduler/credit_scheduler.cc:510-570 | Visits every user once, starting after the one served last, until one is served. |
| `CreditScheduler.Scheduler.DispatchRounds` | hil/scheduler/credit_scheduler.cc:573-579 | In-storage before host requests, at most 4096 dispatches. |
| `CreditScheduler.Scheduler.OnTick` | hil/scheduler/credit_scheduler.cc:213-583 | A whole tick is the ledger tick. |
| `WriteBack.IoPosition` | icl/generic_cache.cc:226-231 | The row is the unit of the logical page and the column is in range. |
| `WriteBack.FlushKeeps` | icl/generic_cache.cc:311-346 | Evicting a line from the grid row of its unit hides nothing from a reader and keeps tags unique, in their set, and clean lines equal to what is below. |
| `WriteBack.StoreSets` | icl/generic_cache.cc:588-655 | Storing a value in a line changes what readers of that tag see and nothing else. |
| `WriteBack.DrainOne` | icl/generic_cache.cc:311-346 | During an eviction: flushed lines are empty, those that were dirty were sent as (tag / lineCountInSuperPage, tag % lineCountInSuperPage), nothing else was sent. |
| `WriteBack.StoreWrites` | icl/generic_cache.cc:564-655 | A hit or a cold miss: no dirty line is lost, only this tag is sent. |
| `WriteBack.EvictionWrites` | icl/generic_cache.cc:656-735 | A miss with eviction: every tag that was dirty is still dirty or was sent in the call, and nothing but this tag and dirty lines was sent. |
| `WriteBack.AroundIsSeenUnlessCached` | icl/generic_cache.cc:744-760 | With write caching off, a write is seen exactly if no line holds another value for its tag. |
| `GenericCaches.GenericCache.constructor` | icl/generic_cache.cc:32-95 | An empty cache. |
| `GenericCaches.GenericCache.GetValidWay` | icl/generic_cache.cc:255-272 | The way that holds a tag, or waySize if no line of the cache does. |
| `GenericCaches.GenericCache.GetEmptyWay` | icl/generic_cache.cc:233-253 | The empty way stamped earliest, or waySize exactly if the set is full. |
| `GenericCaches.GenericCache.EvictCache` | icl/generic_cache.cc:311-351 | Exactly the candidates in the grid are flushed; dirty ones are sent, readers see no difference, the grid is empty afterwards. |
| `GenericCaches.GenericCache.CollectCandidates` | icl/generic_cache.cc:660-670 | A position of the grid has a candidate exactly if some valid line has that position; candidates are valid lines in the row of their unit. |
| `GenericCaches.GenericCache.Compact` | icl/generic_cache.cc:672-682 | Compaction leaves one candidate, in the last column, in exactly the rows that had any. |
| `GenericCaches.GenericCache.HaveTarget` | icl/generic_cache.cc:684-694 | Whether a candidate is in the target set. |
| `GenericCaches.GenericCache.AddTarget` | icl/generic_cache.cc:696-710 | Afterwards a candidate is in the target set. |
| `GenericCaches.GenericCache.MakeRoom` | icl/generic_cache.cc:656-724 | Which lines go: with MODE_ALL one for each I/O position that has any, with MODE_SUPERPAGE one for each row that has any and one more for the target set only if it would get none; each the earliest by the policy. A way in the target set is free afterwards. |
| `GenericCaches.GenericCache.Write` | icl/generic_cache.cc:564-768 | "Cache corrupted!" is unreachable; readers see the new value of this tag and old values of all others; no dirty line is lost; the result is true exactly for a hit or an empty way, and the line is dirty exactly after a partial write or an eviction; a full line is sent below first; the line is in set t % sets; an eviction gives up such victims and changes no other line, and without one a single line changes. |
| `CacheRead.ReadMissDropsDirtyVictim` | icl/generic_cache.cc:441-505 | A read miss marks its victim clean before evictCache looks at it: a dirty victim is not sent and its reader falls back to what was below; every other reader is unaffected. |
| `CacheRead.ReadMissKeepsDirtyIffCleanVictim` | icl/generic_cache.cc:441-505 | A read miss loses no dirty line exactly if its victim is empty or clean. |
| `CacheRead.ReadLosesPartialWrite` | icl/generic_cache.cc:441-505 | Empty cache of one line, partial write of tag 0, read of tag 1: the value of tag 0 is gone and was not sent. |
| `CacheRead.WriteAroundLeavesStaleLine` | icl/generic_cache.cc:744-760 | Empty cache, read of tag 0, write of tag 0 with write caching off: a reader still gets the old value. |
| `FlashAddress.LocateThenFind` | pal/pal_old.cc:161-321 | For every allocation order and superblock mask, every (superblock, unit) has an address in range from which both can be read off. |
| `FlashAddress.FindThenLocate` | pal/pal_old.cc:161-321 | Every address in range (plane 0 with multi-plane operation) belongs to exactly one (superblock, unit). |
| `FlashAddress.InRangeIff` | pal/pal_old.cc:189-245 | In range means every field below its own size, one dimension at a time. |
| `FlashCoordinates.CoordinatesAre` | pal/pal_old.cc:189-316 | Every coordinate in closed form: a digit of the superblock number outside the mask, of the unit number in it, in the allocation order. |
| `FlashCoordinates.DefaultOrder` | pal/pal_old.cc:189-316 | The same for channel, package, die and plane in this order and any mask, with all fields written out. |
| `FlashCoordinates.NextSuperBlock` | pal/pal_old.cc:189-245 | The next superblock is one step along the first dimension of the order outside the mask. |
| `FlashCoordinates.NextUnit` | pal/pal_old.cc:247-316 | The next unit is one step along the first dimension of the order in the mask. |
| `FlashAddress.StripThenAlong` | pal/pal_old.cc:189-245 | Repeated remainder and division is inverted by mixed-radix evaluation. |
| `FlashAddress.PlaceThenAcross` | pal/pal_old.cc:247-316 | The loop nest numbers the units of a superblock without repetition. |
| `FlashConversion.OrderDoesNotMatter` | pal/pal.cc:45-84 | The products over the mask do not depend on the allocation order. |
| `FlashConversion.Sizes` | pal/pal.cc:33-92 | superBlock, superPageSize and pageInSuperPage as products of the configured sizes over the mask, and as the numbers of superblocks and of separately addressed units. |
| `FlashConversion.ParseAllocation` | pal/config.cc:207-272 | A page allocation string is accepted exactly if its first four dimension letters are all four dimensions; the plane moves to the front with multi-plane operation. |
| `FlashConversion.LettersMean` | pal/config.cc:207-252 | The four letters in either case. |
| `FlashConversion.MovePlane` | pal/config.cc:255-268 | The plane comes first and the others keep their order. |
| `FlashConversion.StripOrder` | pal/pal_old.cc:189-245 | The first loop. |
| `FlashConversion.Nest` | pal/pal_old.cc:247-316 | The loop nest lists the flagged units in order and counts every flag once. |
| `FlashConversion.Convert` | pal/pal_old.cc:161-321 | The only failure is a flag set of the wrong size with random I/O; the final flag-count check always passes. |
| `FlashConversion.ConvertedUnits` | pal/pal_old.cc:161-321 | The list holds the page of a unit exactly if the unit is flagged, or if the flags are not one for each unit. |
| `WriteFifo.RoundedBounds` | util/fifo.cc:99-107 | Rounding adds less than a unit; what exceeds the queue is larger than a unit, so both parts of a split are not empty. |
| `WriteFifo.AssemblesMeans` | util/fifo.cc:109-162 | Segments that assemble requests cover their bytes once and in order, and each request ends once. |
| `WriteFifo.AssemblesSplit` | util/fifo.cc:121-141 | Splitting a request keeps that. |
| `WriteFifo.PendingIsNotSplit` | util/fifo.cc:115-119 | A segment whose insertion is pending is never split again. |
| `WriteFifo.InsertKeeps` | util/fifo.cc:109-162 | Inserting keeps the invariant; a request not being inserted waits for room and nothing else. |
| `WriteFifo.DmaWriteKeeps` | util/fifo.cc:408-419 | Accepting a request keeps the invariant; an empty one is ignored. |
| `WriteFifo.InsertDoneKeeps` | util/fifo.cc:164-173 | Ending an insertion keeps the invariant. |
| `WriteFifo.BeginKeeps` | util/fifo.cc:175-187 | Starting a transfer keeps the invariant; there is a segment to transfer. |
| `WriteFifo.CompleteKeeps` | util/fifo.cc:206-232 | Completing a transfer keeps the invariant; usage does not underflow. |
| `WriteFifo.WritesAreTiled` | util/fifo.cc:99-232 | After any events in any order: bytes written are the first bytes asked for, once and in order; callbacks were made once each, in order, after all bytes of their request; usage is the rounded load of the transfer queue. |
| `WriteFifo.QuietMeansDelivered` | util/fifo.cc:99-232 | When no event is outstanding everything accepted is written and every callback was made. |
| `DmaFifo.WriteQueue.constructor` | util/fifo.cc:58-82 | An idle queue. |
| `DmaFifo.WriteQueue.InsertWrite` | util/fifo.cc:109-162 | Return, split or push as in the state machine. |
| `DmaFifo.WriteQueue.DmaWrite` | util/fifo.cc:408-419 | The state machine step. |
| `DmaFifo.WriteQueue.InsertWriteDone` | util/fifo.cc:164-173 | The state machine step. |
| `DmaFifo.WriteQueue.TransferWrite` | util/fifo.cc:175-187 | Sends the front segment unless a transfer is pending. |
| `DmaFifo.WriteQueue.BeginTransfer` | util/fifo.cc:175-187 | The begin-transfer event. |
| `DmaFifo.WriteQueue.TransferWriteDoneNext` | util/fifo.cc:206-232 | Callback (which may write again), completion, next transfer and next insertion. |
| `NamespaceRanges.GapsAreTheComplement` | hil/nvme/subsystem.cc:262-278 | The inverted list is the exact complement: a run of pages is free if and only if one range of the list holds it. |
| `NamespaceRanges.FirstGapIsFirstFit` | hil/nvme/subsystem.cc:280-288 | The first range that is large enough gives the lowest free run. |
| `NamespaceRanges.FreeRunIsApart` | hil/nvme/subsystem.cc:280-288 | A free run is disjoint from every allocated range. |
| `NamespaceRanges.SortStacks` | hil/nvme/subsystem.cc:229-237 | Sorting disjoint ranges by start makes each end before the next begins. |
| `NamespaceRanges.AccountsMatchIff` | hil/nvme/subsystem.cc:216-338 | create and destroy count the same pages exactly if the remainder of the size, in bytes, is less than a page. |
| `NamespaceRanges.AccountsDrift` | hil/nvme/subsystem.cc:216-338 | A size for which 512 pages are added and 513 taken away. |
| `Subsystems.InsertedRangesIff` | hil/nvme/subsystem.cc:294-312 | Adding a namespace keeps ranges disjoint exactly if its range is not empty, inside the device and apart from all others. |
| `Subsystems.InsertedIdsIff` | hil/nvme/subsystem.cc:303-312 | Adding a namespace keeps identifiers distinct exactly if its own is not used yet. |
| `Subsystems.StaleRangeOverlaps` | hil/nvme/subsystem.cc:290-292 | A full device and a range left over from an earlier call: the new namespace overlaps. |
| `Subsystems.Subsystem.constructor` | hil/nvme/subsystem.cc:216-220 | No namespaces. |
| `Subsystems.Subsystem.Invert` | hil/nvme/subsystem.cc:262-278 | The "BUG" panic is unreachable; the result is the list of gaps. |
| `Subsystems.Subsystem.Place` | hil/nvme/subsystem.cc:229-292 | First fit among all free runs, or none if there is none. |
| `Subsystems.Subsystem.Create` | hil/nvme/subsystem.cc:216-314 | The lowest free run is taken; if none fits, the range the caller passes in is used unless it is empty. Ranges stay disjoint exactly if there is nothing to serve (no page asked for, or more than the counter has left), or a run fits, or the range passed in is empty or suits; so a caller with an empty range never breaks them. |
| `Subsystems.Subsystem.LowestUnusedId` | hil/nvme/subsystem.cc:1152-1161 | The identifier a create command gets is the lowest one that is not used. |
| `Subsystems.Subsystem.CreateByCommand` | hil/nvme/subsystem.cc:1092-1127 | A create command passes a new information block: ranges stay disjoint in every case, it succeeds exactly if a run fits, and identifiers stay distinct exactly if the identifier chosen when the command arrived is still unused. |
| `Subsystems.Subsystem.Initialize` | hil/nvme/subsystem.cc:141-183 | The n equal requests of init, made through one information block, always fit: the namespaces lie side by side. It fails exactly if a share is less than a page. |
| `Subsystems.Subsystem.Destroy` | hil/nvme/subsystem.cc:316-338 | The first namespace with the identifier goes, with its pages as counted at deletion; the others stay disjoint and in order. |
| `PageTiling.ConvertIsExact` | hil/nvme/subsystem.cc:185-214 | If one size divides the other, start byte, length and page count of the request are exact. |
| `PageTiling.StartIsExactOnlyIf` | hil/nvme/subsystem.cc:185-214 | And only then. |
| `PageTiling.SplitPages` | icl/icl.cc:69-131 | For every request, one piece per page and no byte twice or forgotten; what remains is what does not fit in the pages. If offset and length fit the page count, pieces are not empty, each in one page, consecutive, and nothing remains. |
| `PageTiling.SplitCommand` | hil/nvme/subsystem.cc:185-214 | From blocks to pieces: exactly the bytes of the command are tiled. |
| `IclWrites.KeepsDirtyTrans` | icl/icl.cc:101-131 | Losing no dirty line composes over the cache writes of a request. |
| `IclWrites.WriteRequest` | icl/icl.cc:101-131 | A request of any number of pages: readers of its pages see the new data, all others what they saw before, and no dirty line is lost over all its evictions; with write caching off, if no line holds one of its pages. Pieces that fill a line are sent below. |
| `Layers.CacheShowsLast` | icl/icl.cc:101-131 | Over any number of requests a reader of the cache and a store below it gets the data last written to a page. |
| `Layers.StoredIsLastWritten` | icl/generic_cache.cc:311-345 | The write requests sent below, served in order, leave in the translation layer what was sent last for each unit. |
| `Layers.ReaderGetsLastWritten` | icl/icl.cc:101-131 | Requests through ICL, cache and translation layer from a new device, with any evictions and any collections: a reader gets the data last written to each page. |
| `Bits.AndMask` | util/algorithm.hh:83-102 | Masking with a field of ones keeps that field in place. |
| `OpenChannelAddress.LowBitIsLog2` | util/algorithm.hh:83-93 | Highest and lowest set bit coincide exactly for powers of two. |
| `OpenChannelAddress.GenerateMask` | util/algorithm.hh:83-102 | The mask covers the fewest bits that hold every index below the value, starting at count. |
| `OpenChannelAddress.SetUpMasks` | hil/nvme/ocssd.cc:1249-1258 | Four disjoint adjacent fields. |
| `OpenChannelAddress.MakeThenParse` | hil/nvme/ocssd.cc:1409-1427 | Within 32 bits parseLBA inverts makeLBA for every block in range. |
| `OpenChannelAddress.WideAddressesFail` | hil/nvme/ocssd.cc:1409-1427 | If the fields need more than 32 bits, some block in range does not survive the round trip. |
| `OpenChannelAddress.RoundTripIff32Bits` | hil/nvme/ocssd.cc:1409-1427 | The round trip holds for all blocks in range if and only if the fields fit in 32 bits, because indices are shifted as 32-bit numbers. |
| `OpenChannelAddress.ParsesInRangeIff` | hil/nvme/ocssd.cc:1420-1427 | Every 64-bit address names a block of the device if and only if the four sizes are powers of two. |
| `OpenChannelAddress.DescriptorsAreDistinct` | hil/nvme/ocssd.cc:1403-1407 | Different chunks in range have different descriptors, all inside the table. |
| `OpenChannelAddress.DescriptorsInOrder` | hil/nvme/ocssd.cc:1403-1407 | Descriptors are in the order of chunks, then parallel units, then groups. |
| `ChunkStates.MatchesIffWithin` | hil/nvme/ocssd.cc:1592-1623 | State and write pointer of a chunk agree if and only if every page accepted is inside the chunk. |
| `ChunkStates.WriteTracks` | hil/nvme/ocssd.cc:1592-1623 | An accepted page lies behind all accepted before. |
| `ChunkStates.NoGapIffAtPointer` | hil/nvme/ocssd.cc:1603-1608 | An accepted page leaves no gap if and only if it is the page at the write pointer. |
| `ChunkStates.FreshChunkAcceptsGap` | hil/nvme/ocssd.cc:1603-1608 | A new chunk accepts page 1, after which page 0 is refused. |
| `ChunkStates.FreshChunkAcceptsPageBeyondEnd` | hil/nvme/ocssd.cc:1592-1623 | A new chunk accepts the page behind its last one, after which state and write pointer disagree. |
| `ChunkStates.FieldStaysInsideIff` | hil/nvme/ocssd.cc:1249-1250 | The sector field keeps page indices inside the chunk exactly if the chunk size is a power of two. |
| `ChunkStates.WriteAllKeeps` | hil/nvme/ocssd.cc:1592-1635 | A write command keeps every chunk in agreement with the pages it accepted. |
| `ChunkStates.WriteLeavesNoGapIff` | hil/nvme/ocssd.cc:1592-1635 | A write command leaves no gap if and only if each accepted page is the one at the write pointer at its turn. |
| `ChunkStates.WriteAcceptsPrefix` | hil/nvme/ocssd.cc:1592-1635 | It accepts its pages up to the first refused one. |
| `ChunkStates.AcceptsIff` | hil/nvme/ocssd.cc:1592-1608 | A chunk accepts a page exactly if it is new, or the page lies behind its last one and the chunk is not closed. |
| `ChunkStates.KeptIff` | hil/nvme/ocssd.cc:1592-1635 | An entry of a write command is kept exactly if it and all before it come in turn, judged by the pages alone. |
| `ChunkStates.InOrderFills` | hil/nvme/ocssd.cc:1592-1623 | Writing the pages of a new chunk in order keeps all of them, and the last one closes it. |
| `ChunkStates.EraseAllKeeps` | hil/nvme/ocssd.cc:1706-1739 | An erase command keeps states and write pointers in agreement. |
| `ChunkStates.EraseOutcome` | hil/nvme/ocssd.cc:1706-1739 | Exactly the closed chunks on the list are reset; an entry reaches the flash exactly if no entry up to it was refused or it is behind the 64 bits of the response mask. |
| `ChunkStates.RefusedStaysOutIff` | hil/nvme/ocssd.cc:1625-1660 | No page that a write command refuses reaches the flash if and only if it refuses none or has at most 64 entries. |
| `ChunkStates.RefusedIsNotErasedIff` | hil/nvme/ocssd.cc:1729-1763 | No entry that an erase command refuses is erased if and only if every entry behind the mask meets a closed chunk. |
| `ChunkStates.MarkedFreeIsErasedIff` | hil/nvme/ocssd.cc:1706-1760 | Chunks marked free are erased in the flash exactly if among the first 64 entries no closed chunk follows a refused one. |
| `ChunkStates.EraseAfterErrorIsLost` | hil/nvme/ocssd.cc:1706-1760 | A list on which a chunk is marked free and not erased. |
| `ChunkStates.ChunkAfterAnyRun` | hil/nvme/ocssd.hh:57-62 | In every reachable state the pages accepted since a reset increase strictly, FREE means none, and FREE, OPEN and CLOSED say where the write pointer is if and only if all of them are inside the chunk. |
| `ChunkStates.InsideRunsMatch` | hil/nvme/ocssd.hh:57-62 | So they do over all runs whose pages are inside chunks. |
| `ChunkStates.NoGapsIffSequential` | hil/nvme/ocssd.cc:1265-1276 | The sequential chunk type holds over a run if and only if every write command is sequential at its turn. |
| `ChunkStates.ChunkTable.constructor` | hil/nvme/ocssd.cc:1265-1276 | All chunks free. |
| `ChunkStates.ChunkTable.WriteInternal` | hil/nvme/ocssd.cc:1592-1635 | The descriptor loop of a write command. |
| `ChunkStates.ChunkTable.EraseInternal` | hil/nvme/ocssd.cc:1706-1739 | The descriptor loop of an erase command. |
| `Base64.EncodingGroup` | util/b64.cc:41-72 | Four characters for each group of three bytes, the last group padded. |
| `Base64.Encode` | util/b64.cc:41-72 | encode computes the encoding of section 4 of RFC 4648. |
| `Base64.Decode` | util/b64.cc:74-99 | decode returns the bytes of all groups, less one for each of the last two characters that is padding. The size fits the buffer exactly if the input has a whole group or does not end in padding. |
| `Base64.QuantumThenBytes` | util/b64.cc:74-99 | The ones that padding decodes to reach only bytes that are cut off. |
| `Base64.EncodeThenDecode` | util/b64.cc:41-99 | decode(encode(x)) == x for every byte string that is not empty. |
| `Base64.EncodingIsText` | util/b64.cc:18-33 | Encoded text stays inside the decoding table. |

## Left out

- Time and power: ticks matter only where the scheduler's phases and the cache's line stamps use them; latencies of DRAM, CPU and flash are arbitrary inputs.
- `PageMapping::format` and `initialize`: format passes blocks that need not be full to the collection, for which the collection promises nothing.
- Victim policies other than greedy. A reclaim ratio that is already met asks for no block; the code then casts a negative number to an unsigned one, which is undefined.
- Block access times and `getDirtyPageCount`, which no modelled decision reads under the greedy policy.
- FtlRun.StepRefines: the victims of a collection are distinct full blocks, which is what `SelectVictimBlock` is proved to deliver.
- PageMappings.PageMapping.CalculateWearLeveling: the ratio is a real number, not a rounded float.
- The iteration order of the scheduler's hash map is the order in which users were added; rehashing is not modelled.
- Doubles of the scheduler are real numbers, and casts to integers are floors.
- Measurement windows and idle counters of the scheduler, latency prediction, and the unused deferred ICL queue.
- CreditScheduler.Scheduler.OnTick: without callbacks that re-enter the scheduler; CreditReentry covers those, for the ledger.
- CreditScheduler.Scheduler.ResumeCallbacks: the same.
- CreditScheduler.Scheduler.ResumeDeferred: the same, for a dispatch that re-enters the scheduler.
- CreditReentry.LedgerUnderReentry: when a nested tick has emptied the queue that a loop is working through, the code calls `front()` on an empty queue (hil/scheduler/credit_scheduler.cc:451 and 478), which is undefined; the model's step does nothing there.
- `isSLO` is an arbitrary fixed flag per user; the code sets it to false for everyone.
- CreditScheduler.Scheduler.ProcessIscRequests: requests that stay go to the back of the same queue instead of a second one; the order after a pass is the same.
- CreditScheduler.Scheduler.SetUserIopsTarget: targets are not negative; a negative double cast to an unsigned integer is undefined.
- Liveness of the scheduler: a large deferred request can be overtaken by smaller ones of its user.
- hil/scheduler/claude.cc, an alternative scheduler with the same class name.
- CacheRead.ReadMissDropsDirtyVictim: a miss that fetches one line, without read ahead of several.
- CacheRead.ReadMissKeepsDirtyIffCleanVictim: the same.
- Layers.ReaderGetsLastWritten: requests are writes; a read miss in between can lose a dirty line, as CacheRead shows.
- Cache reads with read ahead, `flush`, `trim` and `format`; statistics.
- WriteBack.StoreSets: the value of a partial write stands for the merged contents of the line; the simulator keeps no data.
- FlashConversion.Sizes: products are unbounded, so configurations whose products overflow 32 bits are not modelled; the five loop nests are one recursive method.
- The read side of the FIFO and its capacity: a large request is inserted without a capacity check, so usage is not bounded by the capacity.
- WriteFifo.WritesAreTiled: events come in any order, which includes every order time allows; an upstream that completes a transfer before its call returns is not modelled.
- The register interface of the controllers, PRP and SGL lists, SATA, disks, configuration files and the in-storage runtime.
- OpenChannelAddress.MakeThenParse: shifts by 32 or more, undefined in C++, give 0 in the model.
- OpenChannelAddress.DescriptorsAreDistinct: chunks of the device only; ParsesInRangeIff says when every address names one, and access beyond the table is undefined.
- ChunkStates.ChunkAfterAnyRun: commands name chunks of the table, for the same reason.
- Subsystems.Subsystem.LowestUnusedId: identifiers are unbounded, so the refusal when all are taken is not modelled.
- Subsystems.Subsystem.CreateByCommand: the checks of the data structure before it only set a status and do not stop the creation.
- Chunks never become OFFLINE in the code; the model has the state and its error paths, and reachable states do not contain it.
- Base64.Decode: inputs of at least two characters, none of a group behind 'z', since the code reads the table and the last two characters without a check; an allocation of no bytes succeeds; the little-endian union is arithmetic on a 24-bit word.
