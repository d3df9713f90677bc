/**
  Which windows fast memory maps (src/ARMJIT_Memory.cpp, src/CP15.cpp): for an address of a CPU,
  the view around it. Views that are set up under the same mapping are the same or apart.
*/
module FastWindows {
  import opened Bits
  import opened FastViews
  import opened Options
  import L = LocalAddresses

  const DTCM_PHYSICAL_SIZE: nat := 0x4000

  // The start of the block of n bytes around x.
  function BlockOf(x: nat, n: nat): (b: nat)
    requires n > 0
    ensures b <= x < b + n
  {
    x - x % n
  }

  /** Where the CP15 registers place DTCM. */
  function DtcmOf(enabled: bool, setting: U32): Dtcm {
    if enabled then
      var size := L.ItcmSize(setting / 2 % 32);
      var rounded := if size < 0x1000 then 0x1000 else size;
      Dtcm(BlockOf(setting, rounded), rounded)
    else
      Dtcm(SPACE - 1, 0)
  }

  // Off, or a block of a power of two.
  ghost predicate DtcmOk(d: Dtcm) {
    d.InRange() && (d.size > 0 ==> d.base % d.size == 0 && exists k: nat :: d.size == Pow2(k))
  }

  // -------- blocks of powers of two --------

  // A block of n bytes lies in a block of c * n bytes, or apart from it.
  lemma BlockInBlock(a: nat, n: nat, b: nat, c: nat)
    requires n > 0 && c > 0 && a % n == 0 && b % (c * n) == 0
    ensures a + n <= b || b + c * n <= a || (b <= a && a + n <= b + c * n)
  {
    var i, j := a / n, b / (c * n);
    assert a == i * n;
    assert b == j * (c * n);
    Reassociate(j, c, n);
    BetweenMultiples(i, j * c, j * c + c, n);
  }

  lemma Reassociate(j: nat, c: nat, n: nat)
    ensures j * (c * n) == (j * c) * n && (j * c + c) * n == (j * c) * n + c * n
  {
  }

  lemma BetweenMultiples(i: nat, q: nat, r: nat, n: nat)
    requires q <= r
    ensures i * n + n <= q * n || r * n <= i * n || (q * n <= i * n && i * n + n <= r * n)
  {
    assert (i + 1) * n == i * n + n;
    MulKeepsOrder(i + 1, q, n);
    MulKeepsOrder(q, i, n);
    MulKeepsOrder(i + 1, r, n);
    MulKeepsOrder(r, i, n);
  }

  // Of two powers of two the smaller one divides the other.
  lemma PowersDivide(x: nat, i: nat, y: nat, j: nat) returns (c: nat)
    requires x == Pow2(i) && y == Pow2(j) && x <= y
    ensures c > 0 && y == c * x
  {
    if i <= j {
      Pow2Split(j - i, i);
      c := Pow2(j - i);
    } else {
      Pow2Split(i - j, j);
      MulKeepsOrder(1, Pow2(i - j), y);
      c := 1;
    }
  }

  lemma BlockIsAligned(x: nat, n: nat)
    requires n > 0
    ensures BlockOf(x, n) % n == 0
  {
    Quotient(BlockOf(x, n), n, x / n, 0);
  }

  // The sizes that a setting can have: 0x200 << n, in 32 bits.
  lemma SettingSizes(n: nat)
    requires n < 32
    ensures L.ItcmSize(n) == 0 || (n < 23 && L.ItcmSize(n) == Pow2(n + 9))
  {
    WordSizes();
    assert Pow2(9) == 0x200 by {
      assert Pow2(9) == 2 * Pow2(8);
    }
    if n < 23 {
      Pow2Split(n, 9);
      Pow2Grows(n + 9, 31);
      assert Pow2(32) == 2 * Pow2(31);
    } else {
      Pow2Split(9, n);
      Pow2Split(32, n - 23);
      Quotient(0x200 * Pow2(n), SPACE, Pow2(n - 23), 0);
    }
  }

  /** Whatever the registers say, DTCM is off or a block of a power of two between 4 KB and 2 GB. */
  lemma DtcmSettings(enabled: bool, setting: U32)
    ensures DtcmOk(DtcmOf(enabled, setting))
  {
    hide L.ItcmSize, BlockOf;
    var n, d := setting / 2 % 32, DtcmOf(enabled, setting);
    if enabled {
      SettingSizes(n);
      WordSizes();
      assert Pow2(12) == 0x1000 by {
        Pow2Split(4, 8);
        assert Pow2(4) == 16;
      }
      var k := if L.ItcmSize(n) < 0x1000 then 12 else n + 9;
      assert d.size == Pow2(k);
      Pow2Grows(k, 31);
      assert Pow2(32) == 2 * Pow2(31);
      BlockIsAligned(setting, d.size);
      Pow2Split(32 - k, k);
      BlockEnds(setting, d.size, Pow2(32 - k));
    }
  }

  // A block does not go over a multiple of its size.
  lemma BlockEnds(x: nat, n: nat, c: nat)
    requires n > 0 && x < c * n
    ensures BlockOf(x, n) + n <= c * n
  {
    var q := x / n;
    assert BlockOf(x, n) == q * n;
    MulKeepsOrder(c, q, n);
    MulKeepsOrder(q + 1, c, n);
  }

  // -------- the view around an address --------

  predicate Fast(r: L.Region) { r in {L.MainRam, L.SharedWram, L.Wram7, L.NwramA, L.NwramB, L.NwramC} }

  /** The window that is mapped for an address: none outside the regions that fast memory knows. */
  function ViewAt(m: L.Mapping, num: nat, addr: U32): Option<View>
    requires m.Valid() && num < 2
  {
    var r := L.Classify(m, num, addr);
    if r == L.Dtcm then
      var size := if m.dtcm.value.size < DTCM_PHYSICAL_SIZE then m.dtcm.value.size else DTCM_PHYSICAL_SIZE;
      Some(View(r, BlockOf(addr, size), size, BlockOf(addr, size) % DTCM_PHYSICAL_SIZE, 0))
    else if Fast(r) then
      var w := L.GetMirrorLocation(m, r, num, addr);
      if w.None? then None else Some(View(r, w.value.start, w.value.size, w.value.memoryOffset, num))
    else None
  }

  predicate Agrees(m: L.Mapping, d: Dtcm) {
    m.dtcm == if d.size == 0 then None else Some(L.Bank(d.base, d.size))
  }

  lemma KnownPowers()
    ensures Pow2(12) == 0x1000 && Pow2(14) == 0x4000 && Pow2(15) == 0x8000 && Pow2(16) == 0x1_0000
    ensures Pow2(22) == 0x40_0000 && Pow2(24) == 0x100_0000
  {
    WordSizes();
    assert Pow2(4) == 16 && Pow2(6) == 64 && Pow2(7) == 128;
    Pow2Split(4, 8);
    Pow2Split(6, 8);
    Pow2Split(7, 8);
    Pow2Split(6, 16);
    Pow2Split(8, 16);
  }

  predicate WindowSize(size: nat) { size in {0x4000, 0x8000, 0x1_0000, 0x40_0000, 0x100_0000} }

  // The windows of main RAM and of the work RAMs.
  lemma FastWindow(m: L.Mapping, r: L.Region, num: nat, addr: U32)
    requires m.Valid() && num < 2 && Fast(r) && L.GetMirrorLocation(m, r, num, addr).Some?
    ensures var w := L.GetMirrorLocation(m, r, num, addr).value;
      WindowSize(w.size) && w.start == BlockOf(addr, w.size) && w.memoryOffset % 0x4000 == 0
  {
    hide L.ItcmSizeOk, L.Nwram, L.Around, BlockOf;
    match r
    case MainRam => AroundBlock(addr, m.mainRamSize, 0);
    case SharedWram =>
      var bank := if num == 0 then m.swram9.value else m.swram7.value;
      AroundBlock(addr, bank.size, bank.offset);
    case Wram7 =>
      var size := if m.dsi then 0x8000 else 0x1_0000;
      HalvesAligned(addr, size);
      AroundBlock(addr, size, (addr - addr % size) % 0x1_0000);
    case NwramA => NwramBlocks(m, num, 0, addr);
    case NwramB => NwramBlocks(m, num, 1, addr);
    case NwramC => NwramBlocks(m, num, 2, addr);
  }

  lemma AroundBlock(addr: U32, size: nat, offset: nat)
    requires size > 0
    ensures L.Around(addr, size, offset) == Some(L.Window(offset, BlockOf(addr, size), size))
  {
  }

  lemma NwramBlocks(m: L.Mapping, num: nat, bank: nat, addr: U32)
    requires m.Valid() && L.Nwram(m, num, bank, addr).Some?
    ensures var at := L.Nwram(m, num, bank, addr).value;
      at % 0x4000 == 0 && L.Around(addr, L.BlockSize(bank), at) == Some(L.Window(at, BlockOf(addr, L.BlockSize(bank)), L.BlockSize(bank)))
  {
    hide L.Around, BlockOf;
    var at := L.Nwram(m, num, bank, addr).value;
    L.MultipleOfMultiple(at, L.BlockSize(bank), 0x4000);
    AroundBlock(addr, L.BlockSize(bank), at);
  }

  lemma HalvesAligned(addr: nat, size: nat)
    requires size == 0x8000 || size == 0x1_0000
    ensures (addr - addr % size) % 0x1_0000 % 0x4000 == 0
  {
  }

  // They lie below the addresses of IO and of the BIOS of the ARM9, and not at 0.
  lemma FastRange(m: L.Mapping, num: nat, addr: U32)
    requires num < 2 && Fast(L.Classify(m, num, addr))
    ensures 0x200_0000 <= addr < 0x1000_0000
  {
    hide L.InDtcm, L.InNwram;
  }

  lemma WindowPower(size: nat) returns (k: nat)
    requires WindowSize(size)
    ensures size == Pow2(k) && size % 0x4000 == 0
  {
    KnownPowers();
    k := if size == 0x4000 then 14 else if size == 0x8000 then 15 else if size == 0x1_0000 then 16
      else if size == 0x40_0000 then 22 else 24;
  }

  // DTCM is at least as large as a page of 4 KB.
  lemma DtcmWholePages(enabled: bool, setting: U32)
    ensures var d := DtcmOf(enabled, setting); d.size > 0 ==> Aligned(d.base, 0x1000) && Aligned(d.size, 0x1000)
  {
    hide BlockOf, Aligned, L.ItcmSize;
    var d := DtcmOf(enabled, setting);
    DtcmSettings(enabled, setting);
    if d.size > 0 {
      DtcmPages(d, 0x1000);
    }
  }

  // DTCM lies within a window that has an address outside it, or apart from the window.
  lemma DtcmNested(v: View, addr: nat, d: Dtcm)
    requires WindowSize(v.size) && v.addr == BlockOf(addr, v.size) && DtcmOk(d) && !d.Has(addr)
    ensures v.Apart(d) || d.size == 0 || (v.addr <= d.base && d.base + d.size <= v.End())
  {
    hide WindowSize, BlockOf;
    if d.size > 0 {
      var i := WindowPower(v.size);
      var k: nat :| d.size == Pow2(k);
      BlockIsAligned(addr, v.size);
      if d.size <= v.size {
        var c := PowersDivide(d.size, k, v.size, i);
        BlockInBlock(d.base, d.size, v.addr, c);
      } else {
        var c := PowersDivide(v.size, i, d.size, k);
        BlockInBlock(v.addr, v.size, d.base, c);
      }
    }
  }

  lemma DtcmPages(d: Dtcm, page: nat)
    requires DtcmOk(d) && PageSizeOk(page) && page <= d.size
    ensures Aligned(d.base, page) && Aligned(d.size, page)
  {
    hide Aligned;
    KnownPowers();
    var k: nat :| d.size == Pow2(k);
    var c := PowersDivide(page, if page == 0x1000 then 12 else 14, d.size, k);
    Quotient(d.size, page, c, 0);
    L.MultipleOfMultiple(d.base, d.size, page);
    WholeIsAligned(d.base, page);
    WholeIsAligned(d.size, page);
  }

  lemma WholeIsAligned(x: nat, page: nat)
    requires PageSizeOk(page) && x % page == 0
    ensures Aligned(x, page)
  {
  }

  // Classification tells DTCM from the fast regions.
  lemma DtcmFirst(m: L.Mapping, num: nat, addr: U32)
    requires num < 2
    ensures Fast(L.Classify(m, num, addr)) && num == 0 ==> !L.InDtcm(m, addr)
    ensures L.Classify(m, num, addr) == L.Dtcm ==> num == 0 && L.InDtcm(m, addr)
  {
    hide L.InDtcm, L.InNwram;
  }

  // A power of two up to the size of the memory behind DTCM is whole pages and divides the space.
  lemma DtcmSize(d: Dtcm, size: nat, page: nat) returns (pages: nat, blocks: nat)
    requires DtcmOk(d) && PageSizeOk(page) && page <= size == (if d.size < DTCM_PHYSICAL_SIZE then d.size else DTCM_PHYSICAL_SIZE)
    ensures size == pages * page && SPACE == blocks * size
  {
    KnownPowers();
    WordSizes();
    var i: nat :| d.size == Pow2(i);
    var k := if d.size < DTCM_PHYSICAL_SIZE then i else 14;
    pages := PowersDivide(page, if page == 0x1000 then 12 else 14, size, k);
    blocks := PowersDivide(size, k, SPACE, 32);
  }

  lemma DtcmBlock(addr: U32, d: Dtcm, size: nat, page: nat)
    requires DtcmOk(d) && PageSizeOk(page) && page <= size == (if d.size < DTCM_PHYSICAL_SIZE then d.size else DTCM_PHYSICAL_SIZE)
    ensures Aligned(size, page)
    ensures var start := BlockOf(addr, size);
      start + size <= SPACE && Aligned(start, page) && Aligned(start % DTCM_PHYSICAL_SIZE, page)
  {
    hide BlockOf, DtcmOk;
    var pages, blocks := DtcmSize(d, size, page);
    BlockEnds(addr, size, blocks);
    BlockIsAligned(addr, size);
    assert size % page == 0 by {
      Quotient(size, page, pages, 0);
    }
    L.MultipleOfMultiple(BlockOf(addr, size), size, page);
    RestAligned(BlockOf(addr, size), page);
  }

  lemma RestAligned(start: nat, page: nat)
    requires PageSizeOk(page) && Aligned(start, page)
    ensures Aligned(start % DTCM_PHYSICAL_SIZE, page)
  {
    if page == 0x1000 {
      assert start % 0x1000 == 0;
    }
  }

  lemma DtcmWindow(m: L.Mapping, num: nat, addr: U32, d: Dtcm, page: nat)
    requires m.Valid() && num < 2 && Agrees(m, d) && DtcmOk(d) && PageSizeOk(page)
    requires L.Classify(m, num, addr) == L.Dtcm && page <= ViewAt(m, num, addr).value.size
    ensures ViewAt(m, num, addr).value.Ok(d, page) && num == 0
  {
    hide L.Classify, BlockOf, DtcmOk, Aligned;
    DtcmFirst(m, num, addr);
    DtcmBlock(addr, d, ViewAt(m, num, addr).value.size, page);
  }

  lemma FastIsOk(v: View, addr: nat, d: Dtcm, page: nat)
    requires WindowSize(v.size) && v.addr == BlockOf(addr, v.size) && v.offset % 0x4000 == 0 && v.num < 2
    requires 0x200_0000 <= addr < 0x1000_0000 && DtcmOk(d) && PageSizeOk(page)
    requires (v.Skips() ==> !d.Has(addr)) && (v.Hole(d) ==> page <= d.size)
    ensures v.Ok(d, page)
  {
    hide BlockOf;
    var _ := WindowPower(v.size);
    BlockIsAligned(addr, v.size);
    L.MultipleOfMultiple(v.addr, v.size, 0x4000);
    if v.Skips() {
      DtcmNested(v, addr, d);
      if v.Hole(d) {
        DtcmPages(d, page);
      }
    }
  }

  /** The mapping of a window is well formed: on page boundaries, and with all of DTCM in it or none. */
  lemma ViewIsOk(m: L.Mapping, num: nat, addr: U32, d: Dtcm, page: nat)
    requires m.Valid() && num < 2 && Agrees(m, d) && DtcmOk(d) && PageSizeOk(page) && ViewAt(m, num, addr).Some?
    requires var v := ViewAt(m, num, addr).value; page <= v.size && (v.Hole(d) ==> page <= d.size)
    ensures var v := ViewAt(m, num, addr).value;
      v.Ok(d, page) && v.addr <= addr < v.End() && v.num == num && !(v.Skips() && d.Has(addr))
  {
    hide L.ClassifyAddress9, L.ClassifyAddress7, L.GetMirrorLocation, BlockOf, DtcmOk;
    var v := ViewAt(m, num, addr).value;
    DtcmFirst(m, num, addr);
    if v.region == L.Dtcm {
      DtcmWindow(m, num, addr, d, page);
    } else {
      FastWindow(m, v.region, num, addr);
      FastRange(m, num, addr);
      FastIsOk(v, addr, d, page);
    }
  }

  // -------- windows are the same or apart --------

  lemma SameBlock(x: nat, y: nat, n: nat)
    requires n > 0 && BlockOf(x, n) <= y < BlockOf(x, n) + n
    ensures BlockOf(y, n) == BlockOf(x, n) && y / n == x / n
  {
    var q := x / n;
    assert BlockOf(x, n) == q * n;
    Quotient(y, n, q, y - q * n);
  }

  // In its window, outside DTCM, an address is of the window's region.
  lemma SameRegion(m: L.Mapping, num: nat, a: U32, x: U32)
    requires m.Valid() && num < 2 && Fast(L.Classify(m, num, a)) && ViewAt(m, num, a).Some?
    requires var v := ViewAt(m, num, a).value; v.addr <= x < v.End()
    requires num == 0 ==> !L.InDtcm(m, x)
    ensures L.Classify(m, num, x) == L.Classify(m, num, a)
  {
    hide L.ClassifyAddress9, L.ClassifyAddress7, L.InDtcm, L.InNwram, BlockOf, L.GetMirrorLocation, L.ItcmSizeOk;
    var r := L.Classify(m, num, a);
    var w := L.GetMirrorLocation(m, r, num, a).value;
    if num == 1 {
      L.OneRegion7(m, a, x);
    } else {
      FastWindow(m, r, num, a);
      SameBlock(a, x, w.size);
      DtcmFirst(m, num, x);
      NotItcm(m, a);
      SizeOf(m, r, num, a);
      if r == L.MainRam {
        L.Main9(m, a, x);
      } else if r == L.NwramA {
        L.NwramA9(m, a, x);
      } else {
        L.Shared9(m, a, x, w.size);
      }
    }
  }

  lemma NotItcm(m: L.Mapping, a: U32)
    ensures Fast(L.ClassifyAddress9(m, a)) ==> a >= m.itcmSize && L.ClassifyAddress9(m, a) != L.Wram7
    ensures Fast(L.ClassifyAddress9(m, a)) && L.ClassifyAddress9(m, a) != L.MainRam ==> a / 0x100_0000 == 0x03
  {
    hide L.InDtcm, L.InNwram;
  }

  // The size of a window depends on its region alone.
  function SizeIn(m: L.Mapping, r: L.Region, num: nat): nat
    requires m.Valid() && num < 2
  {
    match r
    case MainRam => m.mainRamSize
    case SharedWram =>
      var bank := if num == 0 then m.swram9 else m.swram7;
      if bank.None? then 0 else bank.value.size
    case Wram7 => if m.dsi then 0x8000 else 0x1_0000
    case NwramA => 0x1_0000
    case NwramB => 0x8000
    case NwramC => 0x8000
    case _ => 0
  }

  lemma SizeOf(m: L.Mapping, r: L.Region, num: nat, a: U32)
    requires m.Valid() && num < 2 && Fast(r) && L.GetMirrorLocation(m, r, num, a).Some?
    ensures L.GetMirrorLocation(m, r, num, a).value.size == SizeIn(m, r, num)
  {
  }

  lemma SameMirror(m: L.Mapping, r: L.Region, num: nat, a: U32, x: U32)
    requires m.Valid() && num < 2 && Fast(r) && L.GetMirrorLocation(m, r, num, a).Some?
    requires BlockOf(a, SizeIn(m, r, num)) == BlockOf(x, SizeIn(m, r, num)) && a / SizeIn(m, r, num) == x / SizeIn(m, r, num)
    ensures L.GetMirrorLocation(m, r, num, x) == L.GetMirrorLocation(m, r, num, a)
  {
  }

  /** Outside DTCM, a window is the window of each of its addresses. */
  lemma WindowOfAll(m: L.Mapping, num: nat, a: U32, x: U32)
    requires m.Valid() && num < 2 && Fast(L.Classify(m, num, a)) && ViewAt(m, num, a).Some?
    requires var v := ViewAt(m, num, a).value; v.addr <= x < v.End()
    requires num == 0 ==> !L.InDtcm(m, x)
    ensures ViewAt(m, num, x) == ViewAt(m, num, a)
  {
    hide L.ClassifyAddress9, L.ClassifyAddress7, L.InDtcm, L.GetMirrorLocation, L.ItcmSizeOk, BlockOf, SizeIn;
    var r := L.Classify(m, num, a);
    SameRegion(m, num, a, x);
    FastWindow(m, r, num, a);
    SizeOf(m, r, num, a);
    SameBlock(a, x, SizeIn(m, r, num));
    SameMirror(m, r, num, a, x);
  }

  // A window of DTCM lies in DTCM.
  lemma DtcmWindowInside(m: L.Mapping, num: nat, a: U32, d: Dtcm, x: nat)
    requires m.Valid() && num < 2 && Agrees(m, d) && DtcmOk(d) && L.Classify(m, num, a) == L.Dtcm
    requires var v := ViewAt(m, num, a).value; v.addr <= x < v.End()
    ensures d.Has(x)
  {
    hide L.ClassifyAddress9, L.ClassifyAddress7, BlockOf;
    var v := ViewAt(m, num, a).value;
    DtcmFirst(m, num, a);
    KnownPowers();
    var i: nat :| d.size == Pow2(i);
    var c := PowersDivide(v.size, if d.size < DTCM_PHYSICAL_SIZE then i else 14, d.size, i);
    BlockIsAligned(a, v.size);
    BlockInBlock(v.addr, v.size, d.base, c);
  }

  /** Two windows of a CPU that both show an address are the same. */
  lemma SameOrApart(m: L.Mapping, num: nat, a: U32, b: U32, d: Dtcm, x: U32)
    requires m.Valid() && num < 2 && Agrees(m, d) && DtcmOk(d) && ViewAt(m, num, a).Some? && ViewAt(m, num, b).Some?
    requires var v := ViewAt(m, num, a).value; v.addr <= x < v.End() && !(v.Skips() && d.Has(x))
    requires var w := ViewAt(m, num, b).value; w.addr <= x < w.End() && !(w.Skips() && d.Has(x))
    ensures ViewAt(m, num, a) == ViewAt(m, num, b)
  {
    hide L.ClassifyAddress9, L.ClassifyAddress7, L.GetMirrorLocation, BlockOf, DtcmOk;
    var v, w := ViewAt(m, num, a).value, ViewAt(m, num, b).value;
    DtcmFirst(m, num, a);
    DtcmFirst(m, num, b);
    if v.region == L.Dtcm || w.region == L.Dtcm {
      DtcmWindowInside(m, num, if v.region == L.Dtcm then a else b, d, x);
      SameBlock(a, x, v.size);
      SameBlock(b, x, w.size);
    } else {
      WindowOfAll(m, num, a, x);
      WindowOfAll(m, num, b, x);
    }
  }
}
