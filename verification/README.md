# Verified models of melonDS

Dafny models of the parts of melonDS whose correctness is hardest to see from the code, with proofs
of what they promise. Code that changes state in place is modelled by classes and methods over the
same fields, with the same branches and loops; each is tied to a definition that does not depend on
how the state came about.

| files | what they model |
|---|---|
| `CodeIndex`, `CompiledBlocks`, `TraceRecording`, `Publication`, `BlockCaching` | the JIT block cache: physical index, key map, fast table, restore pool, write barrier, traces that overwrite what they record |
| `TraceArrays` | the arrays a trace is recorded in, and when they are large enough |
| `MainRamRuns`, `UntakenBranch`, `MovedStart`, `StaleLiteral` | runs of the block cache after which it is not sound |
| `FlagAnalysis`, `IdleLoop`, `RegisterCaching` | the JIT's analyses: dead flags, idle loops, register allocation |
| `LocalAddresses`, `CodeAddresses` | address localisation, the windows of fast dispatch, and the index of code |
| `HostRanges`, `FastViews`, `FastWindows`, `PageSteps`, `CurrentWindows`, `FastMemories` | fast memory: placeholders, views with a hole for DTCM, page statuses, and which windows stay right when the mapping changes |
| `CodePages`, `Jits` | the pages that the block cache has fast memory protect, and both as one object |
| `ProtectionUnits` | the ARM9 protection unit and the access timings derived from it |
| `Ccm`, `AesTransfers`, `AesEngines`, `KeyDerivation` | the DSi's AES engine against RFC 3610 (sections 2.2 to 2.5), and its key derivation |
| `ActionReplay` | the Action Replay interpreter |
| `ArmRegisters`, `BlockTransfer` | banked registers, mode entry, LDM and STM |
| `Nwram`, `NwramWindows` | NWRAM banks by slot and by address |
| `Dma`, `Camera` | DMA channels, camera lines |
| `CheatFile` | printer and parser of cheat files |
| `Bits`, `Lists`, `Options` | machine words and powers of two, lists without repetition, optional values |

`dafny verify dfyconfig.toml` checks everything. The class invariants (`Valid`, `Inv`) hold after
every method, so they hold in every reachable state; two methods of fast memory keep theirs exactly
under the condition they state (result 3).

## The main results

* **Block cache.** `BlockCaching.BlockCache.Inv` holds after any run of guest writes, lookups, traces,
  publications, invalidations, remappings and resets: each live block is listed exactly once in each
  of its ranges and owned once; code masks are supersets of the listed masks and empty for empty
  ranges; a page is protected exactly while it contains code. A trace ends where CompileBlock's loop
  does: at an instruction that ends a block, at the size, at a page of the ARM9 or at an interrupt.
  The cache is `Sound` if each live block besides holds the bytes it was compiled from and is the only
  thing its fast slot leads to. Every step but a publication keeps it sound, and `Publish` states
  exactly when that does (result 1).
* **Flag elimination, idle loops, register allocation** preserve meaning for every behaviour within
  the decoded masks: the masks are hypotheses, the meaning is an arbitrary function.
* **Fast memory.** Free pieces and views partition the reserved range; every view is unmapped with the
  pieces it was mapped with, also when DTCM moves; mapping on a fault fails none of the asserts, and a
  mapped page shows what the slow path would access and is protected exactly if a live block is listed
  there. All of this holds over any run of faults and changes of DTCM, NWRAM and shared WRAM, mixed with
  any run of the block cache, which protects pages through fast memory (`Jits.Jit`); for the two
  changes that unmap nothing there is an exact condition (result 3).
* **AES.** Whatever the interleaving of FIFO accesses, the words read are a prefix of what RFC 3610
  prescribes for the words written.
* **Others.** Protection maps equal the from-scratch map; cheat codes always end; mode switches keep
  every register's view, and an LDM undoes an STM in every mode and bank; a write to NWRAM is seen at
  exactly its mirrors; DMA slicing changes neither accesses nor time; saving and loading a cheat tree
  is the identity.

## Where the code does less than it seems to

1. *Restored blocks.* Before a block is taken back from the pool, words, literal values, ranges and
   masks are compared, but not the addresses they came from (`src/ARMJIT.cpp:1008-1039`), and the
   restored block keeps its own `StartAddrLocal`, with which its fast slot is cleared later.
   * A sound cache stays sound exactly if nothing was restored, or the restored block starts where the
     trace does and still holds what is in memory (`BlockCaching.BlockCache.Publish`).
   * While neither branches are followed nor literals folded, every restored block does, so every run
     is sound: the range list then determines the addresses (`CompiledBlocks.InLineSamePath`,
     `Publication.PlainIsRight`, `BlockCaching.BlockCache.Inv`).
   * With either optimisation and any block size of at least two there are runs that are not, whose
     traces all end at a return or at the size. With followed branches, the untaken path of a
     conditional branch is restored for the taken one (`UntakenBranch.TakenPathRestoresUntaken`); from
     size three on a block of another start can be restored, and is found after it has gone
     (`MovedStart.RestoredStartsElsewhere`). With folded literals, a block is restored for a trace that
     folded another literal of the same value (`StaleLiteral.OtherLiteralRestored`). So the settings
     under which every run is sound are exactly those with neither (`JitArgs.Plain`), unless blocks have
     a single instruction.
2. *Idle loops.* `IsIdleLoop` counts the targets of conditional instructions as written. A loop with a
   conditional move can be accepted although its iterations differ
   (`IdleLoop.AcceptedConditionalBodyDiffers`); `IdleLoop.RepeatsIffRegistersWrittenBeforeRead` is the
   exact condition.
3. *Fast memory windows.* Nothing is unmapped when the size of main RAM or of ITCM changes. Windows
   become stale exactly if any shows main RAM, or if ITCM reaches the end of an ARM9 window
   (`FastMemories.FastMemory.ApplyNewRAMSize`, `UpdateITCMSetting`). Then a window that is to be mapped
   can have mapped pages, and the assertion on them is false (`FastMemories.GrownRamIsPartlyMapped`),
   or fast memory shows main RAM where ITCM is accessed (`FastMemories.GrownItcmIsHidden`).
4. *Empty fast slots* are recognised by a tag of ones. That is the tag of one address of the ARM7 in
   Thumb state (`CompiledBlocks.EmptyTagIff`), which is not executable there. Tables are first filled
   by a reset, and the constructor of the model is the state after it.
5. *Action Replay copies* use word accesses, which the bus aligns down. A literal is stored right
   exactly if its address is a multiple of four or it is shorter than a word
   (`ActionReplay.LiteralStoredIff`), an area is moved right exactly if both addresses are, it is
   shorter, or it is moved to itself (`ActionReplay.MovedIff`). ENDIF always turns execution on, since
   a false condition never gets onto the stack (`ActionReplay.EndIfEnables`).
6. *Aborted loads* restore the base register except R15, and except R14 when the fault came from Abort
   mode, whose link register the exception needs (`BlockTransfer.RestoreTransferBase`).
7. *Cameras* make no progress for a size that is not supported, so such a frame never ends
   (`Camera.DsiCamera.TransferScanline`).
8. *Trace arrays* have 32 entries each (`src/ARMJIT.cpp:640-664`), and their indices are not checked.
   Words and literals always have room (`TraceArrays.WordsFit`). Ranges have room unless branches are
   followed, literals are folded, and blocks may have more than 21 instructions
   (`TraceArrays.HasRoom`). Under all these settings there is a run with 33 ranges in one trace
   (`TraceArrays.FillsRanges`).
9. *Branches with link in Thumb state* are never followed. Before a merged one is, bit 12 of its first
   half is looked at (`src/ARMJIT.cpp:308`), which is set in all of them, so it ends its trace
   (`TraceRecording.LinkEnds`).

## Model

| member | source | states |
|---|---|---|
| FlagAnalysis.FloodFillSetFlags | src/ARMJIT.cpp:252-268 | In place: one backward fill adds to each instruction up to `start` exactly the flags it may write that no later definite write supplies, and nothing else changes |
| FlagAnalysis.AnalyseFlags | src/ARMJIT.cpp:965-976 | The fills of the tracing loop and the one at the exit leave in every SetFlags exactly (definite or maybe writes) & classical live-out, for blocks of any length |
| FlagAnalysis.AnalysisIsAnalysed | src/ARMJIT.cpp:965-976 | What the fills leave is what meaning preservation asks for |
| FlagAnalysis.ReducedAgreesOnLive | src/ARMJIT.cpp:252-268 | A block that updates only SetFlags is, before every instruction, in the state of the full block and agrees with it on all live flags |
| FlagAnalysis.FlagEliminationPreservesMeaning | src/ARMJIT.cpp:1061 | Same state and same visible flags at every flag read, memory or fallback observation point and at the exit, for every behaviour within the decoded masks |
| FlagAnalysis.SetFlagsIsMinimal | src/ARMJIT.cpp:252-268 | A flag is computed exactly if some use of it, or the exit, is reachable without a definite write in between |
| IdleLoop.IsIdleLoop | src/ARMJIT.cpp:358-387 | Accepts exactly the bodies without branches, memory writes and system accesses in which no source register is written later without having been counted as written before |
| IdleLoop.RepeatsIffNothingCarried | src/ARMJIT.cpp:910-922 | A second iteration sees what the first saw, for every behaviour within the masks, if and only if no register or flag is carried from one iteration to the next |
| IdleLoop.SkippingIterationsLosesNothing | src/ARMJIT.cpp:910-922 | Then any number of iterations equals one |
| IdleLoop.AcceptedCarriesNothing | src/ARMJIT.cpp:358-387 | Accepted bodies with definite register writes that set every flag before reading it carry nothing |
| IdleLoop.AcceptedConditionalBodyDiffers | src/ARMJIT.cpp:358-387 | Counterexample: a loop with a conditional move before its closing branch is accepted although its iterations differ |
| IdleLoop.RepeatsIffRegistersWrittenBeforeRead | src/ARMJIT.cpp:358-387 | With the flag discipline the property holds exactly if each register that is read and written has an unconditional write before the read |
| RegisterCaching.LastUseLeaves | src/ARMJIT_RegisterCache.h:124-142 | A register leaves the set of needed ones exactly at its last use |
| RegisterCaching.RegisterCache.UnloadRegister | src/ARMJIT_RegisterCache.h:55-66 | Unloading keeps mapping, dirty set and guest values |
| RegisterCaching.RegisterCache.LoadRegister | src/ARMJIT_RegisterCache.h:68-89 | Takes the first free native register in allocation order; fails exactly if none is free |
| RegisterCaching.RegisterCache.FreeRegisterExists | src/ARMJIT_RegisterCache.h:68-89 | Native registers are not short while fewer guest registers are loaded than there are |
| RegisterCaching.RegisterCache.AdvanceSuffix | src/ARMJIT_RegisterCache.h:155-171 | The incremental mask equals the union of the uses from the cursor on |
| RegisterCaching.RegisterCache.PickVictim | src/ARMJIT_RegisterCache.h:199-216 | The victim is the loaded, not necessary register with the fewest remaining uses; one exists unless all loaded registers are necessary |
| RegisterCaching.RegisterCache.Evict | src/ARMJIT_RegisterCache.h:178-217 | Eviction always makes room for what the instruction must have, without unloading any of it |
| RegisterCaching.RegisterCache.Prepare | src/ARMJIT_RegisterCache.h:144-243 | Never runs out of native registers; afterwards everything the instruction depends on can be read, and the mapping is injective |
| RegisterCaching.RegisterCache.PrepareExit | src/ARMJIT_RegisterCache.h:107-112 | Before a conditional exit memory holds the guest values of the mask |
| RegisterCaching.RegisterCache.Flush | src/ARMJIT_RegisterCache.h:114-122 | Every guest value is in memory and nothing is loaded |
| RegisterCaching.RegisterCache.CompileBlock | src/ARMJIT_RegisterCache.h:114-243 | A whole block, compiled and interpreted in any mix, leaves in memory exactly the registers R0-R14 that interpreting it would |
| CodeIndex.PageContainsCode | src/ARMJIT_Internal.h:123-131 | True exactly if a range of the page lists a block |
| CodeIndex.AddKeepsCode | src/ARMJIT.cpp:1077-1090 | Listing a block keeps each code mask covering all listed masks |
| CodeIndex.DropKeepsCode | src/ARMJIT.cpp:555-584 | Dropping a block with its range's mask recomputed keeps that, and an empty range has mask 0 |
| CodeIndex.ScannedIsClosed | src/ARMJIT.cpp:1156-1178 | The mask rebuilt by an invalidation scan covers the blocks that stay |
| CodeIndex.RemoveByValue | src/ARMJIT.cpp:1203-1222 | Removes one occurrence, the last element taking its place, or reports that there is none |
| CompiledBlocks.TagIsUnique | src/ARMJIT_Internal.h:47-53 | Slot and tag together determine address, CPU and state |
| CompiledBlocks.EmptyTagIff | src/ARMJIT_Internal.h:47-53 | The empty sentinel is the tag of no block but a Thumb one of the ARM7 in the last word of the address space |
| CompiledBlocks.UncoveredNoneDepends | src/ARMJIT.h:100-119 | What a range's mask does not cover, no live block depends on |
| CompiledBlocks.WriteKeepsCoherent | src/ARMJIT.h:100-108 | A write to a granule nothing live depends on keeps every live block equal to memory |
| CompiledBlocks.SamePathSameSources | src/ARMJIT.cpp:1008-1039 | A candidate that passes the comparison and was traced at the addresses of the trace has the same sources, although halfwords are compared after zero extension |
| CompiledBlocks.InLineSamePath | src/ARMJIT.cpp:1008-1039 | Without followed branches and folded literals the comparison implies the same addresses and the same start: with at most 32 instructions the range list tells them |
| CompiledBlocks.ShedKeepsFast | src/ARMJIT.cpp:555-584 | Clearing only the own slots of the blocks that go keeps every fast entry leading to its live block |
| TraceRecording.InstructionKeepsTrace | src/ARMJIT.cpp:670-758 | Recording an instruction keeps the trace what the pipeline fetched, at the addresses the mapping gave, with the remap flag of its windows |
| TraceRecording.LoggedWriteKeepsTrace | src/ARMJIT.cpp:679-684 | A write during the trace keeps the recording: each recorded or prefetched byte is in memory or its granule is logged |
| TraceRecording.MoveToEnd | src/ARMJIT.cpp:719-736 | The range of the latest instruction comes last in the list, without repetitions |
| Publication.SamePathIsRight | src/ARMJIT.cpp:1008-1039 | Restoring a block that was traced at the same addresses is right |
| Publication.PlainIsRight | src/ARMJIT.cpp:1008-1039 | So is restoring any block that passes the comparison, if neither it nor the trace follows branches or folds literals |
| Publication.PublicationEffect | src/ARMJIT.cpp:1042-1114 | Publication adds the block exactly if the trace did not write what it depends on, and removes no other |
| Publication.EntryAfterReplay | src/ARMJIT.cpp:1098-1114 | After the replay every fast entry leads to its block exactly if the new block starts where the trace does |
| Publication.RemappableIff | src/ARMJIT.cpp:692-711 | A block depends on the remappable regions exactly if it has code there and embeds an instruction of another window than its entry, or folds a literal of them |
| Publication.ExactlyRemappable | src/ARMJIT.cpp:1117-1146 | Once no remappable block is left in any walked region, exactly the remappable ones have gone |
| Publication.KeptInWindow | src/ARMJIT.cpp:1117-1146 | A block that stays has all its code of the walked regions in the window of its entry, and no literals there |
| Publication.RemappableOnDsi | src/ARMJIT.cpp:1117-1146 | On the DSi, where every region with windows is walked, the remappable blocks are exactly those with code in another window than their entry or a literal of such a region |
| BlockCaching.BlockCache.constructor | src/ARMJIT.cpp:1323-1365 | The empty cache satisfies the invariant and is sound |
| BlockCaching.BlockCache.RetireJitBlock | src/ARMJIT.cpp:489-501 | A block nobody owns is in the pool afterwards, every other block has exactly one owner, and the same blocks are live |
| BlockCaching.BlockCache.RemoveBlock | src/ARMJIT.cpp:555-584 | The block leaves all its ranges, the key map and its fast slot, and nothing else changes owner |
| BlockCaching.BlockCache.InvalidateByAddr | src/ARMJIT.cpp:1148-1240 | Removes every block that depends on the granule and no other, deletes those whose folded literal is written and notes exactly these literals, and keeps index, owners and page protection |
| BlockCaching.BlockCache.CheckAndInvalidate | src/ARMJIT.h:100-119 | After the barrier nothing live depends on the granule; a trace in progress logs the address |
| BlockCaching.BlockCache.GuestWrite | src/ARMJIT.h:100-108 | A guest store keeps a sound cache sound: every live block still holds the bytes it was compiled from |
| BlockCaching.BlockCache.LookUpBlock | src/ARMJIT.cpp:1276-1282 | In a sound cache a hit is a live block compiled for this address, CPU and state |
| BlockCaching.BlockCache.StartCompile | src/ARMJIT.cpp:607-684 | An existing block is only entered again, one of another backing is removed; else a trace begins, with the pipeline filled from the start |
| BlockCaching.BlockCache.RecordInstruction | src/ARMJIT.cpp:670-758 | The prefetched word is recorded wherever memory has gone since, its range comes last, the remap flag follows from its window, and the next word is fetched; the second half of a branch with link is merged with the first, and another word always fits |
| BlockCaching.BlockCache.FollowBranch | src/ARMJIT.cpp:893-945 | A followed branch refills the pipeline from its target, and no longer ends the trace |
| BlockCaching.BlockCache.PassBranch | src/ARMJIT.cpp:955-960 | Nor does a conditional branch that is not taken |
| BlockCaching.BlockCache.RecordLiteral | src/ARMJIT.cpp:827-850 | A literal is folded, and its granule covered, exactly if it can be localised and is not known to be written |
| BlockCaching.BlockCache.AbortTrace | src/ARMJIT.cpp:801-822 | An exception or remapping ends the trace without publishing it |
| BlockCaching.BlockCache.Publish | src/ARMJIT.cpp:982-1114 | Of a trace that has ended: a candidate that passes the comparison is used again; the block is live, and found, exactly if the trace did not overwrite what it was recorded from; a sound cache stays sound exactly if nothing was restored, or the restored block starts where the trace does and holds what is in memory |
| BlockCaching.BlockCache.InvalidateRemappedCode | src/ARMJIT.cpp:1117-1146 | Exactly the blocks go that depend on a remapped window; what stays has its code there in the window of its entry |
| BlockCaching.BlockCache.ResetBlockCache | src/ARMJIT.cpp:1323-1365 | Nothing is allocated, indexed, protected or found any more |
| BlockCaching.BlockCache.SetJITArgs | src/ARMJIT.cpp:503-518 | Settings are clamped, and new ones apply to an empty cache |
| BlockCaching.BlockCache.SetCodeProtection | src/ARMJIT.cpp:1077-1090 | A page that gets its first block, or loses its last one, is protected or released on both sides: in the block cache and, through fast memory, wherever it is mapped |
| TraceArrays.WordsFit | src/ARMJIT.cpp:651-662 | In every state of every run a trace has at most as many words as the block size, and at most 32 literals |
| TraceArrays.HasRoom | src/ARMJIT.cpp:640-664 | A trace whose literals were loaded relative to the PC has at most 32 ranges if no branches are followed, no literals are folded, or blocks have at most 21 instructions |
| TraceArrays.FewRanges | src/ARMJIT.cpp:270-295 | What is traced in line, with the literals that its loads can reach, lies in at most 20 ranges |
| TraceArrays.CountedRanges | src/ARMJIT.cpp:719-736 | What is traced has at most a range for each word, and two for each piece between jumps, besides those of its literals |
| TraceArrays.FillsRanges | src/ARMJIT.cpp:719-736 | Run, for all other settings: 11 loads and 11 followed branches lie in 33 ranges with their literals |
| TraceRecording.LinkEnds | src/ARMJIT.cpp:297-313 | The condition on which a merged branch with link is followed holds of none |
| UntakenBranch.TakenPathRestoresUntaken | src/ARMJIT.cpp:1008-1039 | Run, for any size from two: with followed branches, a block of an untaken branch is restored for the taken path, after the instruction between was overwritten |
| MovedStart.RestoredStartsElsewhere | src/ARMJIT.cpp:1098-1100 | Run, for any size from three: with followed branches, a restored block starts elsewhere than the trace, and a lookup hits it after it has gone |
| StaleLiteral.OtherLiteralRestored | src/ARMJIT.cpp:1008-1039 | Run, for any size from two: with folded literals, a block is restored for a trace that has folded another literal of the same value, with the old value of its own |
| CodeAddresses.MappedInRanges | src/ARMJIT.cpp:84-93 | Every mapping places code in whole ranges of 512 bytes, as recording and the index rely on |
| LocalAddresses.OneRegion9 | src/ARMJIT_Memory.cpp:1261-1319 | On the ARM9 the executable addresses of a window are of one region |
| LocalAddresses.OneRegion7 | src/ARMJIT_Memory.cpp:1321-1380 | On the ARM7 a window is of one region |
| LocalAddresses.SlotInRegion | src/ARMJIT_Memory.cpp:1044-1259 | In a window, the distance from its start gives the local offset: both address computations agree |
| LocalAddresses.DispatchReachesPublication | src/ARMJIT.cpp:1290-1306 | Dispatch through a cached window reaches the slot publication writes, for every executable address |
| LocalAddresses.WindowIffBacked | src/ARMJIT_Memory.cpp:1044-1195 | A window exists for exactly the executable addresses with a backing, and contains them |
| LocalAddresses.ItcmSizesOk | src/CP15.cpp:134-147 | The ITCM sizes the registers can give |
| HostRanges.SplitKeepsPartition | src/ARMJIT_Memory.cpp:300-333 | Splitting a placeholder keeps free pieces and views a partition with no two free pieces touching |
| HostRanges.CoalesceKeepsPartition | src/ARMJIT_Memory.cpp:363-397 | So does coalescing around an unmapped view |
| HostRanges.FreeIsDetermined | src/ARMJIT_Memory.cpp:298-397 | The views alone determine the free pieces |
| HostRanges.UnmapUndoesMap | src/ARMJIT_Memory.cpp:298-397 | Mapping an area and unmapping it restores the free set |
| FastViews.PiecesShow | src/ARMJIT_Memory.cpp:672-703 | What is mapped around DTCM is exactly what the window shows |
| FastViews.PiecesFollow | src/ARMJIT_Memory.cpp:475-498 | Away from DTCM the pieces of a window do not depend on it |
| FastWindows.DtcmSettings | src/CP15.cpp:106-131 | Whatever the registers say, DTCM is off or an aligned block of a power of two |
| FastWindows.ViewIsOk | src/ARMJIT_Memory.cpp:645-681 | A mapped window is on page boundaries and has all of DTCM in it or none |
| FastWindows.WindowOfAll | src/ARMJIT_Memory.cpp:1044-1195 | Outside DTCM a window is the window of each of its addresses |
| FastWindows.SameOrApart | src/ARMJIT_Memory.cpp:645-703 | Two windows of a CPU that show an address in common are the same |
| CurrentWindows.UnmappedIsClear | src/ARMJIT_Memory.cpp:838-850 | With current windows, an unmapped page lies in a window without any mapped page: the status asserted at mapping holds |
| CurrentWindows.CurrentAfterDtcm | src/ARMJIT_Memory.cpp:539-586 | The windows that RemapDTCM leaves are those of the new mapping |
| CurrentWindows.CurrentAfterNwram | src/ARMJIT_Memory.cpp:588-614 | The windows that RemapNWRAM leaves are those of the new mapping |
| CurrentWindows.CurrentAfterSwram | src/ARMJIT_Memory.cpp:616-643 | The windows that RemapSWRAM leaves are those of the new mapping |
| CurrentWindows.SizeKeepsCurrentIff | src/DSi.cpp:1421-1440 | A new size of main RAM keeps the windows current if and only if none of them shows main RAM |
| CurrentWindows.ItcmKeepsCurrentIff | src/CP15.cpp:134-147 | A new size of ITCM keeps them current if and only if it ends before the end of every ARM9 window |
| CurrentWindows.FastIsSlow | src/ARMJIT_Memory.cpp:1197-1380 | Where a current window shows memory, fast memory and the slow path access the same byte, unless ITCM takes precedence |
| PageSteps.FlipStep | src/ARMJIT_Memory.cpp:502-537 | A window that shows the page of code has it in the status that is asserted, and no other window has flipped it |
| FastMemories.FastMemory.ShowsMemory | src/ARMJIT_Memory.cpp:645-756 | A mapped page shows what the slow path accesses, unless ITCM takes precedence, and is protected exactly if there is code behind it |
| FastMemories.FastMemory.MapIntoRange | src/ARMJIT_Memory.cpp:287-343 | Succeeds exactly where nothing is mapped, and keeps the partition |
| FastMemories.FastMemory.UnmapFromRange | src/ARMJIT_Memory.cpp:345-401 | Takes the view out and keeps the partition |
| FastMemories.FastMemory.MapAtAddress | src/ARMJIT_Memory.cpp:645-756 | Maps exactly the window around the address, refuses exactly the sub-page cases, and keeps views, statuses and protection right |
| FastMemories.FastMemory.FaultHandler | src/ARMJIT_Memory.cpp:838-859 | A fault maps the window of an unmapped page exactly if it can be mapped, with no assertion failing, and else takes the slow path |
| FastMemories.FastMemory.Unmap | src/ARMJIT_Memory.cpp:437-499 | Unmaps exactly the pieces that were mapped, all of whose pages are mapped |
| FastMemories.FastMemory.RemapDTCM | src/ARMJIT_Memory.cpp:539-586 | Exactly the ARM9 windows that touch the old or the new DTCM, and those of DTCM, go |
| FastMemories.FastMemory.RemapNWRAM | src/ARMJIT_Memory.cpp:588-614 | Exactly the windows of the shared area go |
| FastMemories.FastMemory.RemapSWRAM | src/ARMJIT_Memory.cpp:616-643 | Exactly the windows of shared WRAM and of the private WRAM in its place go |
| FastMemories.FastMemory.UpdateDTCMSetting | src/CP15.cpp:106-132 | DTCM moves, every remaining window keeps the pieces it was mapped with, and current windows stay current |
| FastMemories.FastMemory.ChangeNwram | src/DSi.cpp:1197-1406 | Current windows stay current over any write to the mapping registers of NWRAM |
| FastMemories.FastMemory.ChangeSwram | src/NDS.cpp:1457-1502 | Current windows stay current over any setting of shared WRAM |
| FastMemories.FastMemory.ApplyNewRAMSize | src/DSi.cpp:1421-1440 | Nothing is unmapped; current windows stay current exactly if the size is the same or none shows main RAM |
| FastMemories.FastMemory.UpdateITCMSetting | src/CP15.cpp:134-147 | Nothing is unmapped; current windows stay current exactly if ITCM ends before the end of every ARM9 window |
| FastMemories.FastMemory.SetCodeProtection | src/ARMJIT_Memory.cpp:502-537 | The assertion never fires, and a mapped page is protected exactly if there is code behind it |
| FastMemories.FastMemory.Reset | src/ARMJIT_Memory.cpp:1021-1037 | Nothing is mapped any more |
| FastMemories.GrownRamIsPartlyMapped | src/ARMJIT_Memory.cpp:706-747 | Run: after main RAM has grown, an unmapped page lies in a window with mapped pages, and the assertion at mapping is false |
| FastMemories.GrownItcmIsHidden | src/CP15.cpp:134-147 | Run: after ITCM has grown, a mapped window shows main RAM where accesses find ITCM |
| CodePages.PagesStep | src/ARMJIT.cpp:1077-1090 | Protecting or releasing a page on both sides keeps the pages of the block cache and of fast memory the same |
| Jits.Jit.ProtectedIffListed | src/ARMJIT_Memory.cpp:502-537 | End to end: a mapped page is protected if and only if a live block is listed in the page of its local address |
| Jits.Jit.StartCompile | src/ARMJIT.cpp:607-684 | A trace begins with the code where the mapping has it, and keeps the block cache and fast memory agreed |
| Jits.Jit.FaultHandler | src/ARMJIT_Memory.cpp:838-859 | A fault keeps them agreed, with current windows, and the page is mapped unless the slow path is taken |
| Jits.Jit.ChangeNwram | src/ARMJIT_Memory.cpp:588-614 | Remapping NWRAM gives up a trace, removes exactly the blocks that depend on it, unmaps its windows, and keeps soundness and current windows |
| Jits.Jit.ChangeSwram | src/ARMJIT_Memory.cpp:616-643 | The same for shared WRAM |
| Jits.Jit.UpdateDTCMSetting | src/CP15.cpp:106-132 | Moving DTCM keeps the block cache and fast memory agreed and windows current, and the new mapping is one that places code in whole ranges |
| ProtectionUnits.RegionInMap | src/CP15.cpp:152-190 | The forced alignment keeps a region within the page maps |
| ProtectionUnits.OwnerIs | src/CP15.cpp:152-200 | The owner of a page is its highest enabled region |
| ProtectionUnits.SameCaching | src/CP15.cpp:215-280 | User and privileged maps differ in permissions only |
| ProtectionUnits.PrivilegedMayMore | src/CP15.cpp:215-280 | What user mode may, privileged mode may |
| ProtectionUnits.AttributesAre | src/CP15.cpp:152-281 | A page has the attributes of its highest enabled region, none outside all regions, and all with the unit off |
| ProtectionUnits.SpreadNibble | src/CP15.cpp:519-558 | A legacy permission register gives each region its two bits |
| ProtectionUnits.ProtectionUnit.UpdateRegionTimings | src/CP15.cpp:315-344 | Timings of the given pages follow from the map of the current mode; the others stay |
| ProtectionUnits.ProtectionUnit.UpdatePURegion | src/CP15.cpp:152-280 | Exactly the pages the region owns get its attributes and timings |
| ProtectionUnits.ProtectionUnit.UpdatePURegions | src/CP15.cpp:282-313 | Both maps and the timings are those defined from the registers alone |
| ProtectionUnits.ProtectionUnit.CP15Write | src/CP15.cpp:459-619 | After every write the maps and timings equal the from-scratch ones |
| ProtectionUnits.ProtectionUnit.SelectMap | src/ARM.cpp:536-542 | Switching the map keeps that: timings do not depend on the mode |
| ProtectionUnits.ProtectionUnit.SetRegionTimings | src/NDS.cpp:146-177 | New bus timings keep that, and change only the given area |
| ProtectionUnits.ProtectionUnit.CP15Reset | src/CP15.cpp:42-74 | Reset establishes it |
| Ccm.IncCounts | src/DSi_AES.cpp:144-238 | Incrementing the 16-byte counter gives the counter blocks of RFC 3610, section 2.3 |
| Ccm.DecryptEncrypt | src/DSi_AES.cpp:251-333 | Decryption of RFC 3610 undoes its encryption and accepts the tag |
| AesTransfers.StartIsCcm | src/DSi_AES.cpp:275-320 | The counter and the first authenticated block of a start are those of RFC 3610, sections 2.2 and 2.3 |
| AesTransfers.MacOfIsCbcMac | src/DSi_AES.cpp:144-158 | The running authentication value is the CBC-MAC of section 2.2 |
| AesTransfers.EncryptsAsRfc | src/DSi_AES.cpp:188-214 | An encryption outputs the ciphertext and padded tag of RFC 3610, for any cipher |
| AesTransfers.DecryptsAsRfc | src/DSi_AES.cpp:160-186 | A decryption outputs the message and expects its tag |
| AesTransfers.RoundTrip | src/DSi_AES.cpp:160-214 | Output and tag fed back decrypt to the input, with the same tag |
| AesTransfers.ReturnedWords | src/DSi_AES.cpp:160-214 | The same in words of the FIFOs |
| AesEngines.AesEngine.WriteCnt | src/DSi_AES.cpp:251-333 | A start sets up the transfer, and is over at once without blocks; a write to a running transfer keeps it going or stops it with the FIFOs as they are |
| AesEngines.AesEngine.WriteInputFIFO | src/DSi_AES.cpp:371-382 | A word is taken and all that can be processed is |
| AesEngines.AesEngine.ReadOutputFIFO | src/DSi_AES.cpp:340-369 | The oldest word is handed out and processing goes on |
| AesEngines.AesEngine.Update | src/DSi_AES.cpp:408-516 | Blocks are processed while words and room are there; the output FIFO never overflows |
| AesEngines.AesEngine.ReadIsPrefix | src/DSi_AES.cpp:408-516 | In every state the words read are a prefix of the output of the words written, for every interleaving |
| AesEngines.AesEngine.Completes | src/DSi_AES.cpp:440-516 | Once all is written and read, the transfer has ended with all its output read |
| AesEngines.AesEngine.DecryptionReturns | src/DSi_AES.cpp:459-482 | An encryption fed back gives the plaintext with bit 21 set |
| KeyDerivation.RotateTwice | src/DSi_AES.cpp:537-552 | Rotations of 128-bit numbers add up: by bytes and by bits |
| KeyDerivation.Rol16 | src/DSi_AES.cpp:537-552 | The byte loops rotate the 128-bit number to the left, by any count modulo 128 |
| KeyDerivation.DeriveNormalKey | src/DSi_AES.cpp:554-573 | ((X xor Y) + C) mod 2^128, rotated by 42 |
| ActionReplay.ValidateInstructions | src/AREngine.cpp:44-64 | Accepts exactly the codes that whole lines with their literals fill |
| ActionReplay.StepDecreases | src/AREngine.cpp:92-116 | Each step keeps cursor and loop start on instruction boundaries and decreases (end - loopstart, loopcount, end - code) |
| ActionReplay.AREngine.RunCheat | src/AREngine.cpp:66-449 | Unless stopped, result and memory are those of the step semantics; an invalid code changes nothing |
| ActionReplay.LiteralIsStored | src/AREngine.cpp:386-417 | Instruction E stores its literal bytes at an aligned address |
| ActionReplay.LiteralStoredIff | src/AREngine.cpp:386-417 | It stores them for every memory and literal if and only if the address is aligned or there are fewer than four |
| ActionReplay.AlignedMove | src/AREngine.cpp:419-442 | Between aligned addresses instruction F moves byte after byte, even if the areas overlap |
| ActionReplay.MovedIff | src/AREngine.cpp:419-442 | It moves its bytes for every memory if and only if both addresses are aligned, there are fewer than four, or they are the same |
| ActionReplay.StepKeepsOpen | src/AREngine.cpp:262-288 | Conditions are only pushed, and loops only begun, while execution is on |
| ActionReplay.EndIfEnables | src/AREngine.cpp:284-288 | So ENDIF always turns execution on |
| ActionReplay.LoopRepeats | src/AREngine.cpp:248-311 | FOR n ... NEXT runs its body n + 1 times, each under the loop's conditions; NEXT FLUSH then clears registers and conditions |
| ArmRegisters.SwitchKeepsViews | src/ARM.cpp:466-534 | A mode switch changes no register as seen from any mode |
| ArmRegisters.SwitchBack | src/ARM.cpp:466-534 | Switching there and back changes nothing at all |
| ArmRegisters.ArmCpu.UpdateMode | src/ARM.cpp:466-543 | The same for the bank swaps in place; the permission map follows unless the switch is phony |
| ArmRegisters.ArmCpu.RestoreCPSR | src/ARM.cpp:424-464 | Returns to the saved PSR of the mode, keeping all views |
| ArmRegisters.ArmCpu.JumpTo | src/ARM.cpp:306-422 | PC is a stage ahead of the target in the state that bit 0 or the saved PSR asks for, and views are kept; where the target may not be executed, the prefetch abort is entered from there |
| ArmRegisters.ArmCpu.TriggerIRQ | src/ARM.cpp:545-567 | Only the link register of IRQ mode changes its view, unless IRQs are masked; the emulator stops exactly if the vectors may not be executed |
| ArmRegisters.ArmCpu.PrefetchAbort | src/ARM.cpp:569-593 | Only the link register of Abort mode changes its view; or none does, and the emulator stops, exactly if the vectors may not be executed |
| ArmRegisters.ArmCpu.DataAbort | src/ARM.cpp:595-610 | Only the link register of Abort mode changes its view; the emulator stops exactly if the vectors may not be executed |
| BlockTransfer.UserIsUserView | src/ARMInterpreter_LoadStore.cpp:451-466 | UserTransferReg is the register that user mode sees, for reading and writing |
| BlockTransfer.StoredAt | src/ARMInterpreter_LoadStore.cpp:564-627 | The k-th lowest register is stored at the mode's start + 4k, modulo 2^32 |
| BlockTransfer.StoredElsewhere | src/ARMInterpreter_LoadStore.cpp:564-627 | No other word of memory changes |
| BlockTransfer.A_STM | src/ARMInterpreter_LoadStore.cpp:564-627 | Stores up to the first refused access; writeback only on completion |
| BlockTransfer.LoadChangesView | src/ARMInterpreter_LoadStore.cpp:507-522 | Loading one register changes its view in the bank that is addressed, and no other view |
| BlockTransfer.LoadedViews | src/ARMInterpreter_LoadStore.cpp:507-522 | After a load, of the current or the user bank, every listed register of that bank has its word, and every other view is unchanged |
| BlockTransfer.LoadRestoresStore | src/ARMInterpreter_LoadStore.cpp:479-627 | An LDM with the list, start and bank of an STM gives every listed register of that bank its value at the store, in any two modes, and changes no other view |
| BlockTransfer.PushPopAddresses | src/ARMInterpreter_LoadStore.cpp:479-627 | A pop finds what a push has stored: it starts at the same address, and writes the base back to its value before |
| BlockTransfer.RestoreTransferBase | src/ARMInterpreter_LoadStore.cpp:468-477 | The base gets its old value in the mode it belongs to, except R15, or R14 after a fault from Abort mode |
| BlockTransfer.A_LDM | src/ARMInterpreter_LoadStore.cpp:479-562 | Completed: loaded, written back by the rules and branched, also to where code may not be executed; aborted at any access: loaded registers stay and the base is restored |
| Nwram.SettingFindsParts | src/DSi.cpp:1717-1771 | Comparing a mapping byte with the setting finds exactly the parts mapped to the slot |
| Nwram.LowestIs | src/DSi.cpp:1225-1240 | The map entry is the lowest mapped part |
| Nwram.PlacesAre | src/DSi.cpp:1717-1771 | The offsets passed to the write barrier are those of exactly the mapped parts |
| Nwram.NwramBank.MapNWRAM | src/DSi.cpp:1197-1334 | The maps are a function of the mapping bytes, whatever the order of writes; remapping is announced exactly when a byte changes |
| Nwram.NwramBank.Read | src/DSi.cpp:1566-1587 | Reads the lowest part of a slot, or zeroes where none is mapped |
| Nwram.NwramBank.Write | src/DSi.cpp:1711-1774 | Changes exactly the mapped parts of a slot, passes them to the barrier, and the same CPU reads the value back, or 0 |
| NwramWindows.WindowIs | src/DSi.cpp:1373-1405 | A window consists of the whole blocks its register names, and shows slot 0 in block 0 of the area |
| NwramWindows.TurnsIff | src/DSi.cpp:1566-1587 | Two addresses show the same byte of a bank exactly if they differ by whole turns of the window |
| NwramWindows.NwramArea.MapNWRAMRange | src/DSi.cpp:1336-1406 | A window register keeps its settable bits; the window changes, and is announced, exactly if one of them does |
| NwramWindows.NwramArea.Read | src/DSi.cpp:1566-1587 | A read gives the bytes at its addresses through the first window that holds them, or is left to the other memories |
| NwramWindows.NwramArea.Write | src/DSi.cpp:1711-1774 | By address: the bytes are seen at the address and all its mirrors, nothing else changes for either CPU, and the barrier gets the places of the mapped parts |
| NwramWindows.NwramArea.WritePassesCode | src/ARMJIT_Memory.cpp:1197-1259 | Code in the area has the local address of the byte read there, and a write to its address passes that to the barrier |
| Dma.TimingKeepsBurst | src/DMA.cpp:214-574 | The burst cursor stays inside its zero-terminated table |
| Dma.TotalTimeConcat | src/DMA.cpp:576-659 | The time of a transfer is that of its slices together |
| Dma.DmaChannel.Start | src/DMA.cpp:171-212 | A start plans exactly Cnt units (mask + 1 for zero), chunks of at most 112 for the geometry FIFO |
| Dma.DmaChannel.Run | src/DMA.cpp:576-741 | Any slicing and stalling does the same accesses in the same total time, and ends with nothing left |
| Camera.AccumulatedIs | src/DSi_Camera.cpp:591-635 | The accumulated source index is floor(dx * 640 / width) |
| Camera.SourceInLine | src/DSi_Camera.cpp:591-635 | It stays below 320 for every output word |
| Camera.FirstOfIs | src/DSi_Camera.cpp:637-644 | Output line k begins at source line 480 * k / height, rounded up |
| Camera.DsiCamera.TransferScanline | src/DSi_Camera.cpp:567-647 | Hands out the scaled line and goes to the next; makes progress exactly for supported sizes of unfinished frames |
| Camera.DsiCamera.TransferFrame | src/DSi_Camera.cpp:531-647 | A frame takes exactly FrameHeight lines whose skips sum to 480, and line k is the scaled source line |
| CheatFile.ParseDataLine | src/ARCodeFile.cpp:230-249 | A data line is taken as data, never as a keyword line |
| CheatFile.LoadSaved | src/ARCodeFile.cpp:269-348 | Every tree that can be saved is reproduced by loading: names, descriptions, flags, categories, order and words |
| CheatFile.LoadedIsSerializable | src/ARCodeFile.cpp:87-266 | Every tree that is loaded can be saved again |
| CheatFile.KeptCodesAreOk | src/ARCodeFile.cpp:451-476 | Of the enabled codes of a category that allows one, the first stays |
| CheatFile.ARCodeFile.Load | src/ARCodeFile.cpp:74-266 | Replaces the tree by the parsed one, or leaves it as it was |
| CheatFile.ARCodeFile.Serialize | src/ARCodeFile.cpp:269-357 | Prints exactly the trees that can be loaded again as they are |

## Left out

- BlockCaching.BlockCache.RecordInstruction: which instructions end a block is decoding, which is a parameter.
- BlockCaching.BlockCache.RecordLiteral: which instructions load a literal is decoding, and the list of ranges has no limit (result 8 says when the source's needs none). The source clears as many masks as the block size (`src/ARMJIT.cpp:646`), so the mask of a later range can cover more granules than in the model.
- BlockCaching.BlockCache.FollowBranch: where a branch leads is decoding as well; the target is any aligned address.
- IdleLoop.AcceptedCarriesNothing: only for definite register writes and flags set before they are read, because the check does not guarantee more (result 2).
- BlockTransfer.LoadRestoresStore: the base and PC are not in the list, because the base rules are marked as unconfirmed in the source.
- AesEngines.AesEngine.WriteCnt: a write that changes mode or tag settings of a transfer and keeps it running is not modelled, because the source then leaves it in a mixed state without a specification.
- Dma.DmaChannel.Run: the accesses, their order and their times, not the memory they change; registers are not rewritten during a transfer.
- ArmRegisters.ArmCpu.JumpTo: timings and pipeline contents are left out; what the protection unit permits is a parameter.
- FastMemories.FastMemory.MapAtAddress: the lists of the regions are one list, and of the code index only which pages contain code is known; the host's protection of runs of pages is not modelled.
- Jits.Jit.UpdateDTCMSetting: a trace in progress goes on with the mapping it began with, also when ITCM or main RAM gets another size.
- ActionReplay.LoopRepeats: bodies without loop instructions, because there is one loop counter, which an inner loop overwrites.
- CheatFile.LoadSaved: text has no NUL characters, and the number of a CODE or CAT line is only told from zero, without overflow.
- CheatFile.ParseDataLine: hexadecimal words without the signs and 0x prefixes that the C library also accepts.
- Restored blocks of a single instruction with a folded literal: that they are sound depends on how its address is decoded.
- Hashes of words and literals are taken to be free of collisions.
- Code emission, chain sites, entry offsets and native code memory: a compiled block is an opaque entry, and a full code memory is a parameter.
- Decoding of instructions into masks, and its agreement with the interpreter.
- VRAM and VWRAM localisation, which the source marks as not taking the mapping into account.
- Host calls that map and protect memory; they are taken to succeed. Of the fault handler, the search for the faulting instruction and its rewriting.
- Addresses in a cached window that may not be executed, such as DTCM.
- MMIO dispatch, savestates, boot, cartridges, sound, video, frontends, the debugger stub and threading.
- I/O registers and mirrors on the Action Replay bus, and the loop over all enabled cheats.
- Block transfers with an empty list.
- Capture of camera frames, pixel conversion and cropping in the camera module.
