/**
  The JIT as a whole (src/ARMJIT.cpp, src/ARMJIT_Memory.cpp): its block cache, fast memory and the
  mapping that both go by. A page is protected exactly if a live block is listed in it, over any run.
*/
module Jits {
  import opened Bits
  import opened BlockCaching
  import opened CodeAddresses
  import opened CodeIndex
  import opened CodePages
  import opened CompiledBlocks
  import opened CurrentWindows
  import opened FastMemories
  import opened FastViews
  import opened FastWindows
  import opened HostRanges
  import opened Lists
  import opened Options
  import opened PageSteps
  import opened Publication
  import opened TraceRecording
  import L = LocalAddresses

  // The index has a live block in the page.
  ghost predicate ListedInPage(blocks: Blocks, keyMap: KeyMap, pageRanges: nat, p: Page) {
    exists id, r: Range :: Live(blocks, keyMap, id) && r in blocks[id].masks && PageAt(r, pageRanges) == p
  }

  lemma ProtectedIsListed(blocks: Blocks, keyMap: KeyMap, listing: Listing, index: seq<AddressRange>, pageRanges: nat,
                          protectedPages: set<Page>, p: Page)
    requires ListingOk(blocks, keyMap, listing) && IndexOk(index, pageRanges, protectedPages, listing, ALL_CLOSED, 0)
    ensures p in protectedPages <==> ListedInPage(blocks, keyMap, pageRanges, p)
  {
    hide PageAt;
    if p in protectedPages {
      var r :| 0 <= r < |index| && p * pageRanges <= r < (p + 1) * pageRanges && index[r].blocks != [];
      RangePage(r, p, pageRanges);
      var id := index[r].blocks[0];
      assert id in index[r].blocks && (id, r) in listing;
      assert Live(blocks, keyMap, id) && r in blocks[id].masks && PageAt(r, pageRanges) == p;
    }
    if ListedInPage(blocks, keyMap, pageRanges, p) {
      var id, r: Range :| Live(blocks, keyMap, id) && r in blocks[id].masks && PageAt(r, pageRanges) == p;
      assert (id, r) in listing && id in index[r].blocks;
      RangePage(r, p, pageRanges);
    }
  }

  lemma RangePage(r: Range, p: Page, pageRanges: nat)
    requires pageRanges > 0
    ensures p * pageRanges <= r < (p + 1) * pageRanges <==> PageAt(r, pageRanges) == p
  {
    PageOfRange(r, p, pageRanges);
  }

  // The page behind an address, outside ITCM and DTCM, is that of its local address.
  lemma PageBehind(m: L.Mapping, num: nat, x: U32, v: View, page: nat)
    requires Backed(m) && num < 2 && PageSizeOk(page) && Aligned(v.addr, page) && Aligned(v.offset, page) && v.addr <= x
    requires Accessed(m, num, x) == Some((v.region, v.offset + (x - v.addr))) && Fast(v.region)
    ensures v.addr <= BlockOf(x, page) && v.offset + (BlockOf(x, page) - v.addr) == BlockOf(v.offset + (x - v.addr), page)
    ensures v.offset + (x - v.addr) < REGION_SIZE
    ensures PageAt(LocaliseCodeAddress(m, num, x), page) == LocalPage(v.region, v.offset + (x - v.addr), page)
  {
    hide L.ClassifyAddress9, L.ClassifyAddress7, L.LocaliseAddress, Backed, Number, BlockOf, Aligned;
    PositiveSizes(m) by { BackedIsValid(m); }
    BackedIsValid(m);
    SameOffsetRange(m, v.region, num, x, x);
    BlockShift(v.addr, v.offset, x, page);
  }

  lemma BackedIsValid(m: L.Mapping)
    requires Backed(m)
    ensures m.Valid()
  {
  }

  lemma BlockShift(a: nat, o: nat, x: nat, page: nat)
    requires PageSizeOk(page) && Aligned(a, page) && Aligned(o, page) && a <= x
    ensures a <= BlockOf(x, page) && o + (BlockOf(x, page) - a) == BlockOf(o + (x - a), page)
  {
    var i, j, q := a / page, o / page, x / page;
    assert a == i * page && o == j * page && BlockOf(x, page) == q * page;
    Quotient(o + (x - a), page, j + q - i, x % page);
  }

  lemma MappedAligned(memory: FastMemory, v: View)
    requires memory.Valid() && v in memory.mappings
    ensures Aligned(v.addr, memory.page) && Aligned(v.offset, memory.page)
  {
    hide Aligned, View.Shows, Current, Partition, AllPieces, StatesOk, DtcmOk, Agrees;
    assert v in Elements(memory.mappings);
  }

  lemma CoreProtects(cache: BlockCache, p: Page)
    requires cache.Core()
    ensures cache.pageRanges > 0 && (p in cache.protectedPages <==> ListedInPage(cache.blocks, cache.keyMap, cache.pageRanges, p))
  {
    hide ListingOk, IndexOk, AllBlocksOk, Owned, FastOk, ListedInPage;
    ProtectedIsListed(cache.blocks, cache.keyMap, cache.listing, cache.index, cache.pageRanges, cache.protectedPages, p);
  }

  // Where a fast region is accessed, ITCM does not take precedence.
  lemma ShownRegion(m: L.Mapping, num: nat, x: U32, v: View)
    requires m.Valid() && num < 2 && Fast(L.Classify(m, num, x))
    requires Accessed(m, num, x) == Some((v.region, v.offset + (x - v.addr))) <==> !(num == 0 && x < m.itcmSize)
    ensures Accessed(m, num, x) == Some((v.region, v.offset + (x - v.addr))) && v.region == L.Classify(m, num, x)
  {
    hide L.ClassifyAddress9, L.ClassifyAddress7, L.LocaliseAddress, L.ItcmSizeOk;
    FastIsAbove(m, x);
  }

  lemma StartIn(m: L.Mapping, num: nat, x: U32, v: View, page: nat, protectedPages: set<Page>, code: Pages)
    requires Backed(m) && num < 2 && PageSizeOk(page) && v.addr <= BlockOf(x, page) && v.addr <= x
    requires v.offset + (BlockOf(x, page) - v.addr) == BlockOf(v.offset + (x - v.addr), page) && v.offset + (x - v.addr) < REGION_SIZE
    requires PageAt(LocaliseCodeAddress(m, num, x), page) == LocalPage(v.region, v.offset + (x - v.addr), page)
    requires PagesAgree(protectedPages, code, page)
    ensures (v.region, v.offset + (BlockOf(x, page) - v.addr)) in code <==> PageAt(LocaliseCodeAddress(m, num, x), page) in protectedPages
  {
    hide LocaliseCodeAddress, Backed, LocalPage, BlockOf;
    PageOfOffset(v.region, v.offset + (x - v.addr), page);
  }

  lemma CodeMapIs(m: L.Mapping, num: nat, virt: nat)
    requires m.mainRamSize > 0 && (m.swram9.Some? ==> m.swram9.value.size > 0) && (m.swram7.Some? ==> m.swram7.value.size > 0)
    ensures CodeMap(m, num)(virt) == LocaliseCodeAddress(m, num, virt)
  {
  }

  // DTCM is made of whole ranges of the code index.
  lemma DtcmKeepsBacked(m: L.Mapping, m': L.Mapping, enabled: bool, setting: U32)
    requires Backed(m) && m' == m.(dtcm := m'.dtcm) && m'.Valid() && Agrees(m', DtcmOf(enabled, setting))
    ensures Backed(m')
  {
    var d := DtcmOf(enabled, setting);
    if d.size > 0 {
      DtcmWholePages(enabled, setting);
      WholeRanges(d.base);
      WholeRanges(d.size);
    }
  }

  lemma WholeRanges(n: nat)
    requires Aligned(n, 0x1000)
    ensures n % 512 == 0
  {
    Quotient(n, 512, n / 0x1000 * 8, 0);
  }

  // -------- the whole --------

  class Jit {
    const cache: BlockCache

    // The block cache with its fast memory, and that the mapping is one that registers can make.
    ghost predicate Valid()
      reads cache, cache.memory
    {
      cache.Inv() && Backed(cache.memory.mapping)
    }

    constructor (ranges: nat, page: nat, m: L.Mapping, args: JitArgs, endsBlock: Decoding)
      requires PageSizeOk(page) && ranges * 512 % page == 0 && ranges <= 18 * REGION_RANGES && Backed(m) && m.dtcm.None?
      ensures Valid() && fresh(cache) && fresh(cache.memory) && cache.memory.UpToDate() && cache.memory.mapping == m
      ensures cache.Sound() && cache.State() == Tables(map[], map[], map[], cache.fast) && cache.mem == map[]
      ensures !cache.compilingBlock && !cache.interrupted && cache.args == args.Clamped() && cache.endsBlock == endsBlock
      ensures cache.ranges == ranges && cache.memory.page == page && cache.invalidLiterals == {}
    {
      BackedIsValid(m);
      var memory := new FastMemory(page, m);
      cache := new BlockCache(ranges, memory, args, endsBlock);
    }

    lemma Parts()
      requires Valid()
      ensures cache.Core() && cache.memory.Structure() && PagesAgree(cache.protectedPages, cache.memory.code, cache.memory.page)
      ensures cache.memory.page == cache.pageRanges * 512 && PageSizeOk(cache.memory.page) && cache.memory.mapping.Valid()
      ensures var m := cache.memory.mapping;
        && m.mainRamSize > 0
        && (m.swram9.Some? ==> m.swram9.value.size > 0) && (m.swram7.Some? ==> m.swram7.value.size > 0)
    {
      hide FastMemory.Structure, PagesAgree, AllBlocksOk, IndexOk, ListingOk, FastOk, Owned, AllRight, BlockCache.Tracing, Backed;
      cache.memory.PageSizeIsOk();
      BackedIsValid(cache.memory.mapping);
      PositiveSizes(cache.memory.mapping);
    }

    /**
      End to end: the mapped page of an address, where fast memory shows what is accessed, is
      protected exactly if a live block is listed in a range of the page of its local address.
    */
    lemma ProtectedIffListed(num: nat, x: U32)
      requires Valid() && cache.memory.UpToDate() && num < 2
      requires StatusAt(cache.memory.states, PageOf(num, x, cache.memory.page)) != Unmapped
      requires Fast(L.Classify(cache.memory.mapping, num, x))
      ensures StatusAt(cache.memory.states, PageOf(num, x, cache.memory.page)) == MappedProtected <==>
        ListedInPage(cache.blocks, cache.keyMap, cache.pageRanges,
          PageAt(LocaliseCodeAddress(cache.memory.mapping, num, x), cache.memory.page))
    {
      hide BlockCache.Inv, FastMemory.Structure, FastMemory.UpToDate, PagesAgree, ListedInPage, Accessed, LocaliseCodeAddress,
        Backed, L.Classify, StatusAt, PageOf, Aligned, BlockOf, LocalPage, PageAt, Fast;
      var memory := cache.memory;
      var page, m := memory.page, memory.mapping;
      Parts();
      BackedIsValid(m);
      var v := memory.ShowsMemory(num, x);
      MappedAligned(memory, v);
      CoreProtects(cache, PageAt(LocaliseCodeAddress(m, num, x), page));
      ShownRegion(m, num, x, v);
      PageBehind(m, num, x, v, page);
      StartIn(m, num, x, v, page, cache.protectedPages, memory.code);
    }

    /** A trace begins, with the code where the mapping has it for the CPU. */
    method StartCompile(num: nat, thumb: bool, blockAddr: nat)
      requires Valid() && !cache.compilingBlock && num < 2 && (!thumb ==> blockAddr % 4 == 0)
      requires var local := LocaliseCodeAddress(cache.memory.mapping, num, blockAddr);
        local != 0 && StartOk(num, thumb, blockAddr, local, cache.ranges)
      modifies cache, cache.memory`states, cache.memory`code
      ensures Valid() && (old(cache.Sound()) ==> cache.Sound()) && cache.mem == old(cache.mem) && cache.args == old(cache.args)
      ensures cache.compilingBlock ==> cache.Prepared(num, thumb, blockAddr, CodeMap(cache.memory.mapping, num))
      ensures cache.compilingBlock && (num, blockAddr + if thumb then 1 else 0) !in old(cache.keyMap) ==>
        cache.State() == old(cache.State()) && cache.invalidLiterals == old(cache.invalidLiterals)
    {
      hide BlockCache.Inv, BlockCache.Core, BlockCache.Sound, FastMemory.Structure, PagesAgree, L.Mapping.Valid, Backed,
        StartOk, Ranged, CodeMap, LocaliseCodeAddress, BlockCache.Prepared, BlockCache.Uncompiled, BlockCache.Reached,
        OnlyRemoved, Shed;
      Parts();
      MappedInRanges(cache.memory.mapping, num);
      CodeMapIs(cache.memory.mapping, num, blockAddr);
      var at := CodeMap(cache.memory.mapping, num);
      cache.StartCompile(num, thumb, blockAddr, at);
    }

    /** An access through fast memory has faulted. */
    method FaultHandler(num: nat, addr: U32) returns (rewriteToSlowPath: bool)
      requires Valid() && cache.memory.UpToDate() && num < 2
      modifies cache.memory
      ensures Valid() && cache.memory.UpToDate() && cache.memory.mapping == old(cache.memory.mapping)
      ensures !rewriteToSlowPath ==> StatusAt(cache.memory.states, PageOf(num, addr, cache.memory.page)) != Unmapped
    {
      hide BlockCache.Inv, FastMemory.Structure, FastMemory.UpToDate, Backed, StatusAt, PageOf;
      Parts();
      rewriteToSlowPath := cache.memory.FaultHandler(num, addr);
      MemoryKeepsInv(cache);
    }

    // Before shared memory is remapped, the blocks that depend on it go, and a trace is given up.
    method PrepareRemap(dsi: bool)
      requires Valid()
      modifies cache, cache.memory`states, cache.memory`code
      ensures Valid() && (old(cache.Sound()) ==> cache.Sound()) && !cache.compilingBlock
      ensures Shed(old(cache.State()), cache.State(), {}) && cache.args == old(cache.args) && cache.mem == old(cache.mem)
      ensures cache.interrupted == old(cache.interrupted)
      ensures forall x :: Live(cache.blocks, cache.keyMap, x) <==>
        Live(old(cache.blocks), old(cache.keyMap), x) && !Remappable(old(cache.blocks)[x], WalkedRegions(dsi))
      ensures forall x | Live(cache.blocks, cache.keyMap, x) :: cache.blocks[x] == old(cache.blocks)[x]
    {
      hide BlockCache.Inv, BlockCache.Sound, Backed, Remappable, InEntryWindow, Shed, Live;
      cache.AbortTrace();
      cache.InvalidateRemappedCode(dsi);
    }

    /** Writes to the mapping registers of NWRAM: blocks and windows that depend on them go first. */
    method ChangeNwram(next: L.Mapping)
      requires Valid() && cache.memory.mapping.dsi && Backed(next)
      requires var m := cache.memory.mapping;
        next == m.(nwramOn := next.nwramOn, nwramStart := next.nwramStart, nwramEnd := next.nwramEnd, nwramAt := next.nwramAt)
      modifies cache, cache.memory
      ensures Valid() && cache.memory.mapping == next && (old(cache.memory.UpToDate()) ==> cache.memory.UpToDate())
      ensures (old(cache.Sound()) ==> cache.Sound()) && !cache.compilingBlock && cache.args == old(cache.args)
      ensures Shed(old(cache.State()), cache.State(), {}) && cache.mem == old(cache.mem) && cache.interrupted == old(cache.interrupted)
      ensures forall x :: Live(cache.blocks, cache.keyMap, x) <==>
        Live(old(cache.blocks), old(cache.keyMap), x) && !Remappable(old(cache.blocks)[x], WalkedRegions(true))
      ensures forall x | Live(cache.blocks, cache.keyMap, x) :: cache.blocks[x] == old(cache.blocks)[x]
    {
      hide BlockCache.Inv, BlockCache.Sound, FastMemory.Structure, FastMemory.UpToDate, Backed, Remappable, Shed, Live;
      PrepareRemap(true);
      Parts();
      BackedIsValid(next);
      label Changed:
      cache.memory.ChangeNwram(next);
      MemoryKeepsInv@Changed(cache);
    }

    /** The same for the setting of shared WRAM. */
    method ChangeSwram(swram9: Option<L.Bank>, swram7: Option<L.Bank>)
      requires Valid() && cache.memory.mapping.(swram9 := swram9, swram7 := swram7).Valid()
      modifies cache, cache.memory
      ensures Valid() && cache.memory.mapping == old(cache.memory.mapping).(swram9 := swram9, swram7 := swram7)
      ensures old(cache.memory.UpToDate()) ==> cache.memory.UpToDate()
      ensures (old(cache.Sound()) ==> cache.Sound()) && !cache.compilingBlock
      ensures forall x :: Live(cache.blocks, cache.keyMap, x) <==>
        Live(old(cache.blocks), old(cache.keyMap), x) && !Remappable(old(cache.blocks)[x], WalkedRegions(old(cache.memory.mapping.dsi)))
    {
      hide BlockCache.Inv, BlockCache.Sound, FastMemory.Structure, FastMemory.UpToDate, Remappable, Shed, Live;
      PrepareRemap(cache.memory.mapping.dsi);
      Parts();
      label Changed:
      cache.memory.ChangeSwram(swram9, swram7);
      MemoryKeepsInv@Changed(cache);
    }

    /** DTCM moves. */
    method UpdateDTCMSetting(enabled: bool, setting: U32)
      requires Valid()
      modifies cache.memory
      ensures Valid() && (old(cache.memory.UpToDate()) ==> cache.memory.UpToDate())
      ensures cache.memory.dtcm == DtcmOf(enabled, setting)
    {
      hide BlockCache.Inv, FastMemory.UpToDate, Backed, DtcmOf;
      Parts();
      ghost var m := cache.memory.mapping;
      cache.memory.UpdateDTCMSetting(enabled, setting);
      MemoryKeepsInv(cache);
      DtcmAgrees(cache.memory);
      DtcmKeepsBacked(m, cache.memory.mapping, enabled, setting);
    }

    /** Main RAM gets a new size: nothing is unmapped. */
    method ApplyNewRAMSize(size: nat)
      requires Valid() && size < 4
      modifies cache.memory
      ensures Valid()
      ensures old(cache.memory.UpToDate()) ==> (cache.memory.UpToDate() <==>
        (cache.memory.mapping == old(cache.memory.mapping) || forall v | v in cache.memory.mappings :: v.region != L.MainRam))
    {
      hide BlockCache.Inv, FastMemory.UpToDate;
      Parts();
      cache.memory.ApplyNewRAMSize(size);
      MemoryKeepsInv(cache);
      DtcmAgrees(cache.memory);
    }

    /** ITCM gets a new size: nothing is unmapped. */
    method UpdateITCMSetting(enabled: bool, setting: U32)
      requires Valid()
      modifies cache.memory
      ensures Valid()
      ensures old(cache.memory.UpToDate()) ==> (cache.memory.UpToDate() <==>
        forall v | v in cache.memory.mappings && v.num == 0 :: cache.memory.mapping.itcmSize < v.End())
    {
      hide BlockCache.Inv, FastMemory.UpToDate, L.ItcmSize;
      Parts();
      cache.memory.UpdateITCMSetting(enabled, setting);
      MemoryKeepsInv(cache);
      DtcmAgrees(cache.memory);
    }
  }

  lemma DtcmAgrees(memory: FastMemory)
    requires memory.Structure()
    ensures memory.mapping.Valid() && Agrees(memory.mapping, memory.dtcm)
  {
  }

  // What fast memory does by itself is no matter of the block cache.
  twostate lemma MemoryKeepsInv(cache: BlockCache)
    requires old(cache.Inv()) && unchanged(cache) && cache.memory.Structure() && cache.memory.code == old(cache.memory.code)
    ensures cache.Inv()
  {
    hide FastMemory.Structure, PagesAgree, AllBlocksOk, IndexOk, ListingOk, FastOk, Owned, AllRight, TraceOk, NoneTouched, CountOk,
      AheadInLine;
  }
}
