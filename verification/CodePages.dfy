/**
  Pages of the code index (src/ARMJIT.cpp, src/ARMJIT_Memory.cpp): the pages that the block cache
  protects, by local address, are those that fast memory knows to contain code, by region.
*/
module CodePages {
  import opened Bits
  import opened CodeAddresses
  import opened CodeIndex
  import opened CompiledBlocks
  import opened FastViews
  import opened FastWindows
  import opened HostRanges
  import L = LocalAddresses

  const REGION_SIZE := 0x800_0000

  function PageAt(a: Local, page: nat): Page { if page == 0 then 0 else a / page }

  // The page of a local address, by its region and offset.
  function LocalPage(region: L.Region, offset: nat, page: nat): Page {
    PageAt(Number(region) * REGION_SIZE + offset, page)
  }

  // Both sides know the same pages.
  ghost predicate PagesAgree(protectedPages: set<Page>, code: Pages, page: nat) {
    forall region, start: nat | start < REGION_SIZE && Aligned(start, page) ::
      (region, start) in code <==> LocalPage(region, start, page) in protectedPages
  }

  lemma NumbersDiffer(r: L.Region, r': L.Region)
    ensures Number(r) == Number(r') <==> r == r'
  {
  }

  lemma PageOfOffset(region: L.Region, offset: nat, page: nat)
    requires PageSizeOk(page)
    ensures LocalPage(region, offset, page) == Number(region) * (REGION_SIZE / page) + offset / page
    ensures LocalPage(region, BlockOf(offset, page), page) == LocalPage(region, offset, page)
    ensures Aligned(BlockOf(offset, page), page) && BlockOf(offset, page) / page == offset / page
  {
    var q := offset / page;
    assert BlockOf(offset, page) == q * page;
    Quotient(BlockOf(offset, page), page, q, 0);
    assert REGION_SIZE == REGION_SIZE / page * page;
    if page == 0x1000 {
      Quotient(Number(region) * REGION_SIZE + offset, 0x1000, Number(region) * 0x8000 + q, offset % page);
      Quotient(Number(region) * REGION_SIZE + q * page, 0x1000, Number(region) * 0x8000 + q, 0);
    } else {
      Quotient(Number(region) * REGION_SIZE + offset, 0x4000, Number(region) * 0x2000 + q, offset % page);
      Quotient(Number(region) * REGION_SIZE + q * page, 0x4000, Number(region) * 0x2000 + q, 0);
    }
  }

  // Pages of different regions or offsets are different.
  lemma SamePage(r: L.Region, s: nat, r': L.Region, s': nat, page: nat)
    requires PageSizeOk(page) && s < REGION_SIZE && s' < REGION_SIZE && Aligned(s, page) && Aligned(s', page)
    ensures LocalPage(r, s, page) == LocalPage(r', s', page) <==> r == r' && s == s'
  {
    hide LocalPage, Number;
    PageOfOffset(r, s, page);
    PageOfOffset(r', s', page);
    NumbersDiffer(r, r');
    PagesInRegion(s, page);
    PagesInRegion(s', page);
    SameParts(REGION_SIZE / page, Number(r), s / page, Number(r'), s' / page);
  }

  lemma SameParts(n: nat, a: nat, i: nat, b: nat, j: nat)
    requires i < n && j < n
    ensures a * n + i == b * n + j <==> a == b && i == j
  {
    if a * n + i == b * n + j {
      Quotient(a * n + i, n, a, i);
      Quotient(a * n + i, n, b, j);
    }
  }

  lemma PagesInRegion(s: nat, page: nat)
    requires PageSizeOk(page) && s < REGION_SIZE && Aligned(s, page)
    ensures s / page < REGION_SIZE / page && s == s / page * page
  {
  }

  /** A page that is protected, or released, on both sides keeps them the same. */
  lemma PagesStep(protectedPages: set<Page>, code: Pages, page: nat, region: L.Region, offset: nat, protect: bool)
    requires PageSizeOk(page) && PagesAgree(protectedPages, code, page) && offset < REGION_SIZE
    ensures var p, c := {LocalPage(region, offset, page)}, {(region, BlockOf(offset, page))};
      PagesAgree(if protect then protectedPages + p else protectedPages - p, if protect then code + c else code - c, page)
  {
    PageOfOffset(region, offset, page);
    forall r, start: nat | start < REGION_SIZE && Aligned(start, page)
      ensures LocalPage(r, start, page) == LocalPage(region, offset, page) <==> r == region && start == BlockOf(offset, page)
    {
      SamePage(r, start, region, BlockOf(offset, page), page);
    }
    hide LocalPage, Aligned, BlockOf;
  }

  // The region with a number.
  function RegionAt(n: nat): (r: L.Region)
    requires n < 18
    ensures Number(r) == n
  {
    if n < 6 then
      if n == 0 then L.Other else if n == 1 then L.Itcm else if n == 2 then L.Dtcm else if n == 3 then L.Bios9
      else if n == 4 then L.MainRam else L.SharedWram
    else if n < 12 then
      if n == 6 then L.Io9 else if n == 7 then L.Vram else if n == 8 then L.Bios7 else if n == 9 then L.Wram7
      else if n == 10 then L.Io7 else L.Wifi
    else if n == 12 then L.Vwram else if n == 13 then L.Bios9DSi else if n == 14 then L.Bios7DSi
    else if n == 15 then L.NwramA else if n == 16 then L.NwramB else L.NwramC
  }

  // The page of a range, on both sides.
  lemma RangeInPage(r: Range, pageRanges: nat, protectedPages: set<Page>, code: Pages, page: nat)
    requires PageSizeOk(page) && page == pageRanges * 512 && r < 18 * REGION_RANGES && PagesAgree(protectedPages, code, page)
    ensures var region, offset := RegionAt(r / REGION_RANGES), r % REGION_RANGES * 512;
      && offset < REGION_SIZE && LocalPage(region, offset, page) == r / pageRanges
      && ((region, BlockOf(offset, page)) in code <==> r / pageRanges in protectedPages)
  {
    var n, k := r / REGION_RANGES, r % REGION_RANGES;
    var region, offset := RegionAt(n), k * 512;
    hide RegionAt, LocalPage, Number, BlockOf, Aligned;
    PageOfOffset(region, offset, page);
    if page == 0x1000 {
      assert LocalPage(region, offset, page) == n * 0x8000 + k * 512 / 0x1000;
    } else {
      assert LocalPage(region, offset, page) == n * 0x2000 + k * 512 / 0x4000;
    }
    BlockBelow(offset, page);
  }

  lemma BlockBelow(offset: nat, page: nat)
    requires page > 0
    ensures BlockOf(offset, page) <= offset
  {
  }

  lemma WholePages(ranges: nat, page: nat)
    requires PageSizeOk(page) && ranges * 512 % page == 0
    ensures page / 512 > 0 && page == page / 512 * 512 && ranges % (page / 512) == 0
  {
    if page == 0x1000 {
      assert ranges % 8 == 0;
    } else {
      assert ranges % 32 == 0;
    }
  }

  lemma NoPagesAgree(page: nat)
    ensures PagesAgree({}, {}, page)
  {
  }
}
