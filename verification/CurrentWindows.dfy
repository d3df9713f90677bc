/**
  Fast memory (src/ARMJIT_Memory.cpp, src/CP15.cpp, src/DSi.cpp): windows that are as the mapping
  is now. While all of them are, a mapped page shows what the slow path accesses, and the page of an
  access that is not mapped lies in a window without mapped pages.
*/
module CurrentWindows {
  import opened Bits
  import opened FastViews
  import opened FastWindows
  import opened Options
  import opened PageSteps
  import L = LocalAddresses

  // -------- windows of the current mapping --------

  // The window is the one of one of its addresses.
  ghost predicate IsCurrent(v: View, m: L.Mapping)
    requires m.Valid()
  {
    v.num < 2 && exists b: U32 :: ViewAt(m, v.num, b) == Some(v)
  }

  ghost predicate Current(vs: set<View>, m: L.Mapping)
    requires m.Valid()
  {
    forall w | w in vs :: IsCurrent(w, m)
  }

  // Windows of the current mapping that show a page in common are the same.
  lemma SameWindow(m: L.Mapping, num: nat, a: U32, w: View, b: U32, d: Dtcm, page: nat, h: nat)
    requires m.Valid() && num < 2 && w.num < 2 && Agrees(m, d) && DtcmOk(d) && ViewAt(m, num, a).Some?
    requires ViewAt(m, w.num, b) == Some(w) && w.Ok(d, page) && w.Shows(d, page, h)
    requires var v := ViewAt(m, num, a).value; v.Ok(d, page) && v.num == num && v.Shows(d, page, h)
    ensures ViewAt(m, num, a) == Some(w)
  {
    hide ViewAt, Aligned, DtcmOk, Agrees;
    var v := ViewAt(m, num, a).value;
    assert v.num == w.num;
    SameOrApart(m, num, a, b, d, h - num * SPACE);
  }

  // If a page of the window is mapped, then so is the page of the address.
  lemma MappedTogether(m: L.Mapping, num: nat, addr: U32, d: Dtcm, page: nat, vs: set<View>, states: map<nat, Status>, code: Pages, h: nat)
    requires m.Valid() && num < 2 && Agrees(m, d) && DtcmOk(d) && PageSizeOk(page) && ViewAt(m, num, addr).Some?
    requires ViewsOk(vs, d, page) && StatesOk(states, vs, d, page, code) && Current(vs, m)
    requires var v := ViewAt(m, num, addr).value; page <= v.size && (v.Hole(d) ==> page <= d.size) && v.Shows(d, page, h)
    requires h in states
    ensures StatusAt(states, PageOf(num, addr, page)) != Unmapped
  {
    hide ViewAt, View.Shows, DtcmOk, Agrees, PageOf;
    var v := ViewAt(m, num, addr).value;
    ViewIsOk(m, num, addr, d, page);
    var w :| w in vs && w.Shows(d, page, h);
    var b: U32 :| ViewAt(m, w.num, b) == Some(w);
    SameWindow(m, num, addr, w, b, d, page, h);
    PageIsShown(v, addr, d, page) by { InRangeOf(d); }
    assert w.Shows(d, page, PageOf(num, addr, page));
  }

  lemma InRangeOf(d: Dtcm)
    requires DtcmOk(d)
    ensures d.InRange()
  {
  }

  /**
    While all views are of the current mapping, a page that is not mapped lies in a window that has
    no mapped page at all: what is asserted of the statuses when the window is mapped holds.
  */
  lemma UnmappedIsClear(m: L.Mapping, num: nat, addr: U32, d: Dtcm, page: nat, vs: set<View>, states: map<nat, Status>, code: Pages)
    requires m.Valid() && num < 2 && Agrees(m, d) && DtcmOk(d) && PageSizeOk(page) && ViewAt(m, num, addr).Some?
    requires ViewsOk(vs, d, page) && StatesOk(states, vs, d, page, code) && Current(vs, m)
    requires var v := ViewAt(m, num, addr).value; page <= v.size && (v.Hole(d) ==> page <= d.size)
    requires StatusAt(states, PageOf(num, addr, page)) == Unmapped
    ensures Clear(states, ViewAt(m, num, addr).value, d, page)
  {
    hide ViewAt, View.Shows, DtcmOk, Agrees, PageOf, StatesOk, ViewsOk, Current, StatusAt;
    forall h: nat | ViewAt(m, num, addr).value.Shows(d, page, h) ensures h !in states {
      if h in states {
        MappedTogether(m, num, addr, d, page, vs, states, code, h);
        assert false;
      }
    }
  }

  // -------- what stays current --------

  predicate InSharedArea(v: View) { v.region in {L.SharedWram, L.Wram7, L.NwramA, L.NwramB, L.NwramC} }

  // The windows of shared WRAM, and of the private WRAM that takes its place where it is not mapped.
  predicate OnSharedWram(v: View) { v.region == L.SharedWram || (v.region == L.Wram7 && v.End() <= 0x380_0000) }

  /** Once DTCM has moved, the windows that are left are current for the new place. */
  lemma CurrentAfterDtcm(m: L.Mapping, m': L.Mapping, num: nat, b: U32, d: Dtcm, d': Dtcm, page: nat)
    requires m.Valid() && m'.Valid() && num < 2 && Agrees(m, d) && Agrees(m', d') && DtcmOk(d) && DtcmOk(d') && PageSizeOk(page)
    requires m' == m.(dtcm := m'.dtcm) && ViewAt(m, num, b).Some?
    requires var v := ViewAt(m, num, b).value; v.Ok(d, page) && v.addr <= b < v.End() && !Moves(v, d, d')
    ensures ViewAt(m', num, b) == ViewAt(m, num, b)
  {
    hide L.ClassifyAddress9, L.ClassifyAddress7, L.GetMirrorLocation, Aligned, DtcmOk;
    StaysApart(ViewAt(m, num, b).value, d, d', page);
    SameClass(m, m', num, b);
    SameLocation(m, m', L.Classify(m, num, b), num, b);
  }

  lemma SameClass(m: L.Mapping, m': L.Mapping, num: nat, b: U32)
    requires num < 2 && m' == m.(dtcm := m'.dtcm) && Fast(L.Classify(m, num, b)) && (num == 0 ==> !L.InDtcm(m', b))
    ensures L.Classify(m', num, b) == L.Classify(m, num, b)
  {
    hide L.InDtcm;
  }

  lemma SameLocation(m: L.Mapping, m': L.Mapping, r: L.Region, num: nat, b: U32)
    requires m.Valid() && m'.Valid() && num < 2 && m' == m.(dtcm := m'.dtcm)
    ensures L.GetMirrorLocation(m', r, num, b) == L.GetMirrorLocation(m, r, num, b)
  {
  }

  /** Once NWRAM or shared WRAM has been mapped anew, the windows that are left are current. */
  lemma CurrentAfterNwram(m: L.Mapping, m': L.Mapping, num: nat, b: U32)
    requires m.Valid() && m'.Valid() && num < 2 && ViewAt(m, num, b).Some?
    requires m' == m.(nwramOn := m'.nwramOn, nwramStart := m'.nwramStart, nwramEnd := m'.nwramEnd, nwramAt := m'.nwramAt)
    requires !InSharedArea(ViewAt(m, num, b).value)
    ensures ViewAt(m', num, b) == ViewAt(m, num, b)
  {
    hide L.InNwram, L.ItcmSizeOk, L.Nwram;
  }

  lemma CurrentAfterSwram(m: L.Mapping, m': L.Mapping, num: nat, b: U32)
    requires m.Valid() && m'.Valid() && num < 2 && ViewAt(m, num, b).Some?
    requires m' == m.(swram9 := m'.swram9, swram7 := m'.swram7)
    requires !OnSharedWram(ViewAt(m, num, b).value)
    ensures ViewAt(m', num, b) == ViewAt(m, num, b)
  {
    hide L.ClassifyAddress9, L.ClassifyAddress7, L.ItcmSizeOk;
    var r := L.Classify(m, num, b);
    if r == L.Wram7 {
      PrivateWram(b, if m.dsi then 0x8000 else 0x1_0000);
    }
    ClassWithoutSwram(m, m', num, b);
  }

  lemma PrivateWram(b: U32, size: nat)
    requires size == 0x8000 || size == 0x1_0000
    ensures b - b % size + size > 0x380_0000 ==> b >= 0x380_0000
  {
  }

  lemma ClassWithoutSwram(m: L.Mapping, m': L.Mapping, num: nat, b: U32)
    requires num < 2 && m' == m.(swram9 := m'.swram9, swram7 := m'.swram7)
    requires var r := L.Classify(m, num, b);
      r != L.SharedWram && (Fast(r) || r == L.Dtcm) && (r == L.Wram7 ==> b >= 0x380_0000)
    ensures L.Classify(m', num, b) == L.Classify(m, num, b)
  {
    hide L.InDtcm, L.InNwram;
    ClassifiedAlike(m, m', b);
  }

  lemma ClassifiedAlike(m: L.Mapping, m': L.Mapping, b: U32)
    requires m' == m.(swram9 := m'.swram9, swram7 := m'.swram7)
    ensures L.InDtcm(m', b) == L.InDtcm(m, b)
    ensures forall cpu, bank :: L.InNwram(m', cpu, bank, b) == L.InNwram(m, cpu, bank, b)
  {
  }

  lemma InOwnWindow(m: L.Mapping, num: nat, b: U32)
    requires m.Valid() && num < 2 && ViewAt(m, num, b).Some?
    ensures var v := ViewAt(m, num, b).value; v.addr <= b < v.End() && v.num == if v.region == L.Dtcm then 0 else num
  {
    hide L.ClassifyAddress9, L.ClassifyAddress7, L.GetMirrorLocation, BlockOf, L.ItcmSizeOk;
    var r := L.Classify(m, num, b);
    DtcmFirst(m, num, b);
    if r != L.Dtcm {
      FastWindow(m, r, num, b);
    }
  }

  /** All windows that are left are current for the new place of DTCM. */
  lemma DtcmKeepsCurrent(vs: set<View>, m: L.Mapping, m': L.Mapping, d: Dtcm, d': Dtcm, page: nat)
    requires m.Valid() && m'.Valid() && m' == m.(dtcm := m'.dtcm) && Agrees(m, d) && Agrees(m', d') && DtcmOk(d) && DtcmOk(d')
    requires PageSizeOk(page) && ViewsOk(vs, d, page) && Current(vs, m) && forall v | v in vs :: !Moves(v, d, d')
    ensures Current(vs, m')
  {
    hide ViewAt, Agrees, DtcmOk, View.Ok, View.Shows, Moves;
    forall v | v in vs ensures IsCurrent(v, m') {
      assert IsCurrent(v, m);
      var b: U32 :| ViewAt(m, v.num, b) == Some(v);
      InOwnWindow(m, v.num, b);
      CurrentAfterDtcm(m, m', v.num, b, d, d', page);
    }
  }

  /** All windows that are left are current for the new setting of NWRAM. */
  lemma NwramKeepsCurrent(vs: set<View>, m: L.Mapping, m': L.Mapping)
    requires m.Valid() && m'.Valid() && Current(vs, m) && forall v | v in vs :: !InSharedArea(v)
    requires m' == m.(nwramOn := m'.nwramOn, nwramStart := m'.nwramStart, nwramEnd := m'.nwramEnd, nwramAt := m'.nwramAt)
    ensures Current(vs, m')
  {
    hide ViewAt;
    forall v | v in vs ensures IsCurrent(v, m') {
      assert IsCurrent(v, m);
      var b: U32 :| ViewAt(m, v.num, b) == Some(v);
      CurrentAfterNwram(m, m', v.num, b);
    }
  }

  /** All windows that are left are current for the new setting of shared WRAM. */
  lemma SwramKeepsCurrent(vs: set<View>, m: L.Mapping, m': L.Mapping)
    requires m.Valid() && m'.Valid() && Current(vs, m) && forall v | v in vs :: !OnSharedWram(v)
    requires m' == m.(swram9 := m'.swram9, swram7 := m'.swram7)
    ensures Current(vs, m')
  {
    hide ViewAt;
    forall v | v in vs ensures IsCurrent(v, m') {
      assert IsCurrent(v, m);
      var b: U32 :| ViewAt(m, v.num, b) == Some(v);
      CurrentAfterSwram(m, m', v.num, b);
    }
  }

  lemma OwnIsCurrent(m: L.Mapping, num: nat, addr: U32)
    requires m.Valid() && num < 2 && ViewAt(m, num, addr).Some? && ViewAt(m, num, addr).value.num == num
    ensures IsCurrent(ViewAt(m, num, addr).value, m)
  {
  }

  // -------- changes that unmap nothing --------

  lemma ResizedIsValid(m: L.Mapping, size: nat)
    requires m.Valid() && size in {0x40_0000, 0x100_0000}
    ensures m.(mainRamSize := size).Valid()
  {
    hide L.ItcmSizeOk, L.SharedOk;
  }

  lemma ItcmIsValid(m: L.Mapping, enabled: bool, n: nat)
    requires m.Valid() && n < 32
    ensures m.(itcmSize := if enabled then L.ItcmSize(n) else 0).Valid()
  {
    L.ItcmSizesOk(n);
    hide L.SharedOk, L.ItcmSize;
    assert L.ItcmSizeOk(0);
  }

  /** A new size of main RAM leaves the windows current exactly if none of them is of main RAM. */
  lemma SizeKeepsCurrentIff(vs: set<View>, m: L.Mapping, m': L.Mapping)
    requires m.Valid() && m'.Valid() && Current(vs, m) && m' == m.(mainRamSize := m'.mainRamSize)
    ensures Current(vs, m') <==> m' == m || forall v | v in vs :: v.region != L.MainRam
  {
    hide ViewAt;
    if Current(vs, m') && m' != m {
      forall v | v in vs ensures v.region != L.MainRam {
        assert IsCurrent(v, m) && IsCurrent(v, m');
        var b: U32 :| ViewAt(m, v.num, b) == Some(v);
        var b': U32 :| ViewAt(m', v.num, b') == Some(v);
        SizeOfMainRam(m, v.num, b);
        SizeOfMainRam(m', v.num, b');
      }
    }
    if forall v | v in vs :: v.region != L.MainRam {
      forall v | v in vs ensures IsCurrent(v, m') {
        assert IsCurrent(v, m);
        var b: U32 :| ViewAt(m, v.num, b) == Some(v);
        OtherWindowKept(m, m', v.num, b);
      }
    }
  }

  lemma SizeOfMainRam(m: L.Mapping, num: nat, b: U32)
    requires m.Valid() && num < 2 && ViewAt(m, num, b).Some?
    ensures ViewAt(m, num, b).value.region == L.MainRam ==> ViewAt(m, num, b).value.size == m.mainRamSize
  {
    hide L.ClassifyAddress9, L.ClassifyAddress7, L.ItcmSizeOk;
  }

  lemma OtherWindowKept(m: L.Mapping, m': L.Mapping, num: nat, b: U32)
    requires m.Valid() && m'.Valid() && num < 2 && m' == m.(mainRamSize := m'.mainRamSize) && ViewAt(m, num, b).Some?
    requires ViewAt(m, num, b).value.region != L.MainRam
    ensures ViewAt(m', num, b) == ViewAt(m, num, b)
  {
    hide L.ItcmSizeOk, L.ClassifyAddress9, L.ClassifyAddress7, L.GetMirrorLocation;
    ClassUnsized(m, m', num, b);
    LocationUnsized(m, m', L.Classify(m, num, b), num, b);
  }

  lemma ClassUnsized(m: L.Mapping, m': L.Mapping, num: nat, b: U32)
    requires num < 2 && m' == m.(mainRamSize := m'.mainRamSize)
    ensures L.Classify(m', num, b) == L.Classify(m, num, b)
  {
    hide L.InNwram, L.InDtcm;
    SameDtcm(m, m', b);
    forall cpu, bank ensures L.InNwram(m', cpu, bank, b) == L.InNwram(m, cpu, bank, b) {
      SameNwram(m, m', cpu, bank, b);
    }
  }

  lemma LocationUnsized(m: L.Mapping, m': L.Mapping, r: L.Region, num: nat, b: U32)
    requires m.Valid() && m'.Valid() && num < 2 && m' == m.(mainRamSize := m'.mainRamSize) && r != L.MainRam
    ensures L.GetMirrorLocation(m', r, num, b) == L.GetMirrorLocation(m, r, num, b)
  {
    hide L.ItcmSizeOk;
  }

  lemma SameNwram(m: L.Mapping, m': L.Mapping, cpu: nat, bank: nat, b: U32)
    requires m'.nwramStart == m.nwramStart && m'.nwramEnd == m.nwramEnd
    ensures L.InNwram(m', cpu, bank, b) == L.InNwram(m, cpu, bank, b)
  {
  }

  lemma SameDtcm(m: L.Mapping, m': L.Mapping, b: U32)
    requires m'.dtcm == m.dtcm
    ensures L.InDtcm(m', b) == L.InDtcm(m, b)
  {
  }

  /** A new size of ITCM leaves the windows current exactly if it reaches over none of them. */
  lemma ItcmKeepsCurrentIff(vs: set<View>, m: L.Mapping, m': L.Mapping, d: Dtcm)
    requires m.Valid() && m'.Valid() && Current(vs, m) && m' == m.(itcmSize := m'.itcmSize) && Agrees(m, d) && DtcmOk(d)
    ensures Current(vs, m') <==> forall v | v in vs && v.num == 0 :: m'.itcmSize < v.End()
  {
    hide ViewAt, Agrees, DtcmOk;
    forall v | v in vs
      ensures IsCurrent(v, m') <==> (v.num == 0 ==> m'.itcmSize < v.End())
    {
      assert IsCurrent(v, m);
      if v.num == 0 && IsCurrent(v, m') {
        var b: U32 :| ViewAt(m', v.num, b) == Some(v);
        InOwnWindow(m', v.num, b);
        AboveItcm(m', b);
      }
      if v.num == 0 ==> m'.itcmSize < v.End() {
        var b: U32 :| ViewAt(m, v.num, b) == Some(v);
        ItcmBelow(m, m', v.num, b, d);
      }
    }
  }

  lemma AboveItcm(m: L.Mapping, b: U32)
    requires m.Valid() && ViewAt(m, 0, b).Some?
    ensures b >= m.itcmSize
  {
    hide L.InNwram, L.InDtcm, L.ItcmSizeOk;
  }

  // Below the end of a window, ITCM hides none of a fast region's window, and not the end of one of DTCM.
  lemma ItcmBelow(m: L.Mapping, m': L.Mapping, num: nat, b: U32, d: Dtcm)
    requires m.Valid() && m'.Valid() && num < 2 && m' == m.(itcmSize := m'.itcmSize) && Agrees(m, d) && DtcmOk(d)
    requires ViewAt(m, num, b).Some? && (num == 0 ==> m'.itcmSize < ViewAt(m, num, b).value.End())
    ensures IsCurrent(ViewAt(m, num, b).value, m')
  {
    hide L.ClassifyAddress9, L.ClassifyAddress7, L.ItcmSizeOk, BlockOf, L.GetMirrorLocation, Agrees, DtcmOk;
    var v := ViewAt(m, num, b).value;
    InOwnWindow(m, num, b);
    DtcmFirst(m, num, b);
    if v.region == L.Dtcm {
      DtcmAbove(m, m', b, d);
    } else {
      FastAbove(m, m', num, b);
      SameElsewhere(m, m', v.region, num, b);
      assert ViewAt(m', num, b) == Some(v);
    }
  }

  lemma DtcmAbove(m: L.Mapping, m': L.Mapping, b: U32, d: Dtcm)
    requires m.Valid() && m'.Valid() && m' == m.(itcmSize := m'.itcmSize) && Agrees(m, d) && DtcmOk(d)
    requires L.Classify(m, 0, b) == L.Dtcm && m'.itcmSize < ViewAt(m, 0, b).value.End()
    ensures IsCurrent(ViewAt(m, 0, b).value, m')
  {
    hide L.ClassifyAddress9, L.ClassifyAddress7, L.ItcmSizeOk, BlockOf, L.GetMirrorLocation;
    var v := ViewAt(m, 0, b).value;
    DtcmFirst(m, 0, b);
    var last := v.End() - 1;
    DtcmWindowInside(m, 0, b, d, last);
    SameBlock(b, last, v.size);
    DtcmAbovePriority(m', last);
    assert ViewAt(m', 0, last) == Some(v);
  }

  lemma DtcmAbovePriority(m: L.Mapping, x: U32)
    requires x >= m.itcmSize && L.InDtcm(m, x)
    ensures L.Classify(m, 0, x) == L.Dtcm
  {
  }

  lemma FastAbove(m: L.Mapping, m': L.Mapping, num: nat, b: U32)
    requires m.Valid() && m'.Valid() && num < 2 && m' == m.(itcmSize := m'.itcmSize)
    requires ViewAt(m, num, b).Some? && Fast(L.Classify(m, num, b))
    requires num == 0 ==> m'.itcmSize < ViewAt(m, num, b).value.End()
    ensures L.Classify(m', num, b) == L.Classify(m, num, b)
  {
    hide L.ItcmSizeOk, BlockOf, L.GetMirrorLocation, L.InNwram, L.InDtcm, L.ClassifyAddress9, L.ClassifyAddress7;
    var v := ViewAt(m, num, b).value;
    FastRange(m, num, b);
    FastWindow(m, v.region, num, b);
    if num == 0 {
      SameBlock(b, v.End() - 1, v.size);
      WindowBelow(v.size, b);
      L.ItcmKeeps(m', b, v.End() - 1, v.size);
    }
    ClassAbove(m, m', num, b);
  }

  lemma WindowBelow(size: nat, b: U32)
    requires WindowSize(size) && b < 0x1000_0000
    ensures BlockOf(b, size) + size <= 0x2000_0000
  {
  }

  lemma ClassAbove(m: L.Mapping, m': L.Mapping, num: nat, b: U32)
    requires num < 2 && m' == m.(itcmSize := m'.itcmSize) && Fast(L.Classify(m, num, b)) && (num == 0 ==> b >= m'.itcmSize)
    ensures L.Classify(m', num, b) == L.Classify(m, num, b)
  {
    hide L.InDtcm, L.InNwram;
    SameDtcm(m, m', b);
    forall cpu, bank ensures L.InNwram(m', cpu, bank, b) == L.InNwram(m, cpu, bank, b) {
      SameNwram(m, m', cpu, bank, b);
    }
  }

  lemma SameElsewhere(m: L.Mapping, m': L.Mapping, r: L.Region, num: nat, b: U32)
    requires m.Valid() && m'.Valid() && num < 2 && m' == m.(itcmSize := m'.itcmSize)
    ensures L.GetMirrorLocation(m', r, num, b) == L.GetMirrorLocation(m, r, num, b)
  {
    hide L.ItcmSizeOk;
  }

  // -------- what a mapped page shows --------

  /** What an access on the slow path finds: a region, and the offset in its memory. */
  function Accessed(m: L.Mapping, num: nat, x: U32): Option<(L.Region, nat)>
    requires m.Valid() && num < 2
  {
    var r := L.Classify(m, num, x);
    if r == L.Dtcm then Some((r, x % DTCM_PHYSICAL_SIZE)) else
      var offset := L.LocaliseAddress(m, r, num, x);
      if offset.Some? then Some((r, offset.value)) else None
  }

  /**
    A current window shows at each of its addresses, outside the hole for DTCM, exactly what the
    slow path accesses, unless ITCM takes precedence there.
  */
  lemma FastIsSlow(m: L.Mapping, v: View, d: Dtcm, x: U32)
    requires m.Valid() && IsCurrent(v, m) && Agrees(m, d) && DtcmOk(d)
    requires v.addr <= x < v.End() && !(v.Skips() && d.Has(x))
    ensures Accessed(m, v.num, x) == Some((v.region, v.offset + (x - v.addr))) <==> !(v.num == 0 && x < m.itcmSize)
  {
    hide L.ClassifyAddress9, L.ClassifyAddress7, L.ItcmSizeOk, BlockOf, L.GetMirrorLocation, L.LocaliseAddress,
      L.InDtcm, DtcmOk;
    var b: U32 :| ViewAt(m, v.num, b) == Some(v);
    DtcmFirst(m, v.num, b);
    ItcmFirst(m, x);
    InDtcmIs(m, d, x);
    if v.region == L.Dtcm {
      DtcmIsSlow(m, b, d, x);
    } else {
      SameRegion(m, v.num, b, x);
      L.SlotInRegion(m, v.region, v.num, b, x);
      FastIsAbove(m, x);
    }
  }

  lemma ItcmFirst(m: L.Mapping, x: U32)
    ensures x < m.itcmSize ==> L.ClassifyAddress9(m, x) == L.Itcm
    ensures x >= m.itcmSize && L.InDtcm(m, x) ==> L.ClassifyAddress9(m, x) == L.Dtcm
  {
    hide L.InDtcm, L.InNwram;
  }

  lemma FastIsAbove(m: L.Mapping, x: U32)
    ensures Fast(L.ClassifyAddress9(m, x)) ==> x >= m.itcmSize
  {
    hide L.InDtcm, L.InNwram;
  }

  lemma InDtcmIs(m: L.Mapping, d: Dtcm, x: U32)
    requires Agrees(m, d)
    ensures L.InDtcm(m, x) <==> d.Has(x)
  {
  }

  lemma DtcmIsSlow(m: L.Mapping, b: U32, d: Dtcm, x: U32)
    requires m.Valid() && Agrees(m, d) && DtcmOk(d) && L.Classify(m, 0, b) == L.Dtcm
    requires var v := ViewAt(m, 0, b).value; v.addr <= x < v.End()
    ensures d.Has(x) && var v := ViewAt(m, 0, b).value; v.offset + (x - v.addr) == x % DTCM_PHYSICAL_SIZE
  {
    hide L.ClassifyAddress9, L.ClassifyAddress7, L.ItcmSizeOk, BlockOf;
    var v := ViewAt(m, 0, b).value;
    DtcmFirst(m, 0, b);
    DtcmWindowInside(m, 0, b, d, x);
    KnownPowers();
    var i: nat :| d.size == Pow2(i);
    var c := PowersDivide(v.size, if d.size < DTCM_PHYSICAL_SIZE then i else 14, DTCM_PHYSICAL_SIZE, 14);
    BlockIsAligned(b, v.size);
    BlockIsAligned(v.addr, DTCM_PHYSICAL_SIZE);
    BlockInBlock(v.addr, v.size, BlockOf(v.addr, DTCM_PHYSICAL_SIZE), c);
    OffsetInBlock(v.addr, x);
  }

  lemma OffsetInBlock(a: nat, x: nat)
    requires a <= x < BlockOf(a, DTCM_PHYSICAL_SIZE) + DTCM_PHYSICAL_SIZE
    ensures a % DTCM_PHYSICAL_SIZE + (x - a) == x % DTCM_PHYSICAL_SIZE
  {
    Quotient(x, DTCM_PHYSICAL_SIZE, a / DTCM_PHYSICAL_SIZE, a % DTCM_PHYSICAL_SIZE + (x - a));
  }
}
