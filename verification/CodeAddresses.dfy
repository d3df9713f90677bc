/**
  Where code at a virtual address lies in the code index (src/ARMJIT.cpp, LocaliseCodeAddress).
  Memory is mapped in whole ranges of the index, whatever the mapping is.
*/
module CodeAddresses {
  import opened Bits
  import opened Options
  import opened CodeIndex
  import opened CompiledBlocks
  import opened TraceRecording
  import L = LocalAddresses

  // The number of a region, above which a local address holds the offset in it.
  function Number(r: L.Region): nat {
    match r
    case Other => 0
    case Itcm => 1
    case Dtcm => 2
    case Bios9 => 3
    case MainRam => 4
    case SharedWram => SHARED_WRAM
    case Io9 => 6
    case Vram => 7
    case Bios7 => 8
    case Wram7 => WRAM7
    case Io7 => 10
    case Wifi => 11
    case Vwram => 12
    case Bios9DSi => 13
    case Bios7DSi => 14
    case NwramA => NEW_SHARED_WRAM_A
    case NwramB => NEW_SHARED_WRAM_B
    case NwramC => NEW_SHARED_WRAM_C
  }

  // What the registers can produce besides: DTCM is a block of whole ranges, and a bank of NWRAM has 256 KB.
  ghost predicate Backed(m: L.Mapping) {
    && m.Valid()
    && (m.dtcm.Some? ==> m.dtcm.value.offset % 512 == 0 && m.dtcm.value.size % 512 == 0)
    && (forall cpu: nat, bank: nat, block: nat | m.nwramAt(cpu, bank, block).Some? :: m.nwramAt(cpu, bank, block).value < 0x4_0000)
  }

  /** The local address of code, 0 where there can be none. */
  function LocaliseCodeAddress(m: L.Mapping, num: nat, virt: nat): Local
    requires m.mainRamSize > 0 && (m.swram9.Some? ==> m.swram9.value.size > 0) && (m.swram7.Some? ==> m.swram7.value.size > 0)
  {
    if virt >= 0x1_0000_0000 then 0 else
      var r := L.Classify(m, num, virt);
      var offset := if L.Executable(r) then L.LocaliseAddress(m, r, num, virt) else None;
      if offset.Some? then Number(r) * 0x800_0000 + offset.value else 0
  }

  // -------- ranges --------

  lemma SameRangeMod(u: nat, v: nat, size: nat)
    requires size > 0 && size % 512 == 0 && u / 512 == v / 512
    ensures u % size / 512 == v % size / 512
  {
    RangeMod(u, size);
    RangeMod(v, size);
  }

  lemma RangeMod(u: nat, size: nat)
    requires size > 0 && size % 512 == 0
    ensures u % size / 512 == u / 512 % (size / 512) && u % size % 512 == u % 512
  {
    var k, q := size / 512, u / 512;
    assert q == q / k * k + q % k && size == k * 512;
    MulAssociates(q / k, k, 512);
    assert u == q / k * size + (q % k * 512 + u % 512);
    MulKeepsOrder(q % k + 1, k, 512);
    Quotient(u, size, q / k, q % k * 512 + u % 512);
    Quotient(u % size, 512, q % k, u % 512);
  }

  lemma MulAssociates(a: nat, b: nat, c: nat)
    ensures a * b * c == a * (b * c)
  {
  }

  // An offset in a region: it keeps the place in the range, and ranges go to ranges.
  lemma OffsetRange(u: nat, v: nat, size: nat, offset: nat)
    requires size > 0 && size % 512 == 0 && offset % 512 == 0 && u / 512 == v / 512
    ensures (offset + u % size) % 512 == u % 512 && (offset + u % size) / 512 == (offset + v % size) / 512
  {
    SameRangeMod(u, v, size);
    RangeMod(u, size);
    RangeMod(v, size);
    Quotient(offset + u % size, 512, offset / 512 + u % size / 512, u % 512);
    Quotient(offset + v % size, 512, offset / 512 + v % size / 512, v % 512);
  }

  lemma RegionRange(number: nat, x: nat, y: nat)
    requires x / 512 == y / 512
    ensures RangeOf(number * 0x800_0000 + x) == RangeOf(number * 0x800_0000 + y)
    ensures (number * 0x800_0000 + x) % 512 == x % 512
  {
    Quotient(number * 0x800_0000 + x, 512, number * 0x4_0000 + x / 512, x % 512);
    Quotient(number * 0x800_0000 + y, 512, number * 0x4_0000 + y / 512, y % 512);
  }

  // The offsets of one region.
  lemma SameOffsetRange(m: L.Mapping, r: L.Region, num: nat, u: U32, v: U32)
    requires Backed(m) && num < 2 && L.Executable(r) && u / 512 == v / 512
    ensures var x, y := L.LocaliseAddress(m, r, num, u), L.LocaliseAddress(m, r, num, v);
      x.Some? == y.Some? && (x.Some? ==> x.value < 0x800_0000 && x.value % 512 == u % 512 && x.value / 512 == y.value / 512)
  {
    PositiveSizes(m);
    hide L.ItcmSizeOk, L.SharedOk, L.LocaliseNwram, L.ClassifyAddress9, L.ClassifyAddress7;
    if r == L.SharedWram {
      SharedOffset(m, num, u, v);
    } else if r == L.NwramA {
      NwramOffset(m, num, 0, u, v);
    } else if r == L.NwramB {
      NwramOffset(m, num, 1, u, v);
    } else if r == L.NwramC {
      NwramOffset(m, num, 2, u, v);
    } else {
      MaskIs(m, r, num, u);
      MaskIs(m, r, num, v);
      OffsetRange(u, v, Mask(m, r), 0);
    }
  }

  // The size of a region that is mapped as a whole.
  function Mask(m: L.Mapping, r: L.Region): (size: nat)
    requires m.mainRamSize > 0
    ensures size > 0
  {
    match r
    case Itcm => 0x8000
    case MainRam => m.mainRamSize
    case Bios9 => 0x1000
    case Bios7 => 0x4000
    case Vram => 0x10_0000
    case Vwram => 0x4_0000
    case _ => 0x1_0000
  }

  lemma MaskIs(m: L.Mapping, r: L.Region, num: nat, u: U32)
    requires Backed(m) && L.Executable(r) && r !in {L.SharedWram, L.NwramA, L.NwramB, L.NwramC}
    ensures L.LocaliseAddress(m, r, num, u) == Some(u % Mask(m, r))
    ensures Mask(m, r) <= 0x100_0000 && Mask(m, r) % 512 == 0
  {
    hide L.ItcmSizeOk, L.SharedOk;
  }

  lemma SharedOffset(m: L.Mapping, num: nat, u: U32, v: U32)
    requires Backed(m) && num < 2 && u / 512 == v / 512
    ensures var x, y := L.LocaliseAddress(m, L.SharedWram, num, u), L.LocaliseAddress(m, L.SharedWram, num, v);
      x.Some? == y.Some? && (x.Some? ==> x.value < 0x800_0000 && x.value % 512 == u % 512 && x.value / 512 == y.value / 512)
  {
    hide L.ItcmSizeOk;
    var bank := if num == 0 then m.swram9 else m.swram7;
    if bank.Some? {
      OffsetRange(u, v, bank.value.size, bank.value.offset);
    }
  }

  lemma NwramOffset(m: L.Mapping, num: nat, bank: nat, u: U32, v: U32)
    requires Backed(m) && num < 2 && bank < 3 && u / 512 == v / 512
    ensures var x, y := L.LocaliseNwram(m, num, bank, u), L.LocaliseNwram(m, num, bank, v);
      x.Some? == y.Some? && (x.Some? ==> x.value < 0x800_0000 && x.value % 512 == u % 512 && x.value / 512 == y.value / 512)
  {
    hide L.ItcmSizeOk, L.SharedOk;
    var size := L.BlockSize(bank);
    SameBlock(u, v, size);
    var at := L.Nwram(m, num, bank, u);
    if at.Some? {
      L.MultipleOfMultiple(at.value, size, 512);
      OffsetRange(u, v, size, at.value);
    }
  }

  lemma SameBlock(u: nat, v: nat, size: nat)
    requires size in {0x8000, 0x1_0000} && u / 512 == v / 512
    ensures u / size == v / size
  {
    Regroup(u, 512, size / 512);
    Regroup(v, 512, size / 512);
  }

  lemma Regroup(u: nat, d: nat, k: nat)
    requires d > 0 && k > 0
    ensures u / (k * d) == u / d / k
  {
    var q := u / d;
    MulAssociates(q / k, k, d);
    calc {
      u;
      q * d + u % d;
      (q / k * k + q % k) * d + u % d;
      q / k * k * d + (q % k * d + u % d);
      q / k * (k * d) + (q % k * d + u % d);
    }
    MulKeepsOrder(q % k + 1, k, d);
    Quotient(u, k * d, q / k, q % k * d + u % d);
  }

  // -------- regions --------

  // A boundary of whole ranges does not cut a range.
  lemma Uncut(u: nat, v: nat, bound: nat)
    requires u / 512 == v / 512 && bound % 512 == 0
    ensures u < bound <==> v < bound
  {
    L.BoundaryKeeps(u, v, 512, bound);
  }

  lemma ItcmOfRanges(m: L.Mapping)
    requires Backed(m)
    ensures m.itcmSize % 512 == 0
  {
    hide L.SharedOk;
    if m.itcmSize % 0x100_0000 == 0 {
      L.MultipleOfMultiple(m.itcmSize, 0x100_0000, 512);
    } else {
      var n: nat :| n < 15 && m.itcmSize == 0x200 * Pow2(n);
    }
  }

  lemma UncutNwram(m: L.Mapping, cpu: nat, bank: nat, u: U32, v: U32)
    requires Backed(m) && u / 512 == v / 512
    ensures L.InNwram(m, cpu, bank, u) <==> L.InNwram(m, cpu, bank, v)
  {
    L.NwramKeeps(m, cpu, bank, u, v, 512);
  }

  lemma UncutDtcm(m: L.Mapping, u: U32, v: U32)
    requires Backed(m) && u / 512 == v / 512
    ensures L.InDtcm(m, u) <==> L.InDtcm(m, v)
  {
    hide L.ItcmSizeOk, L.SharedOk;
    if m.dtcm.Some? {
      Uncut(u, v, m.dtcm.value.offset);
      Uncut(u, v, m.dtcm.value.offset + m.dtcm.value.size);
    }
  }

  lemma SameRegion9(m: L.Mapping, u: U32, v: U32)
    requires Backed(m) && u / 512 == v / 512
    ensures L.ClassifyAddress9(m, u) == L.ClassifyAddress9(m, v)
  {
    ItcmOfRanges(m);
    Uncut(u, v, m.itcmSize);
    UncutDtcm(m, u, v);
    UncutNwram(m, 0, 0, u, v);
    UncutNwram(m, 0, 1, u, v);
    UncutNwram(m, 0, 2, u, v);
    hide L.InNwram, L.InDtcm, Backed;
    Regroup(u, 512, 8);
    Regroup(v, 512, 8);
    Regroup(u, 512, 0x8000);
    Regroup(v, 512, 0x8000);
    Uncut(u, v, 0xFFFF_0000);
    Uncut(u, v, 0xFFFF_8000);
  }

  lemma SameRegion7(m: L.Mapping, u: U32, v: U32)
    requires Backed(m) && u / 512 == v / 512
    ensures L.ClassifyAddress7(m, u) == L.ClassifyAddress7(m, v)
  {
    UncutNwram(m, 1, 0, u, v);
    UncutNwram(m, 1, 1, u, v);
    UncutNwram(m, 1, 2, u, v);
    hide L.InNwram, Backed;
    Regroup(u, 512, 0x4000);
    Regroup(v, 512, 0x4000);
    Uncut(u, v, 0x1_0000);
    Uncut(u, v, 0x8000);
    Uncut(u, v, 0x4000);
    Uncut(u, v, 0x0380_0000);
  }

  // -------- the whole address space --------

  lemma LocalRange(m: L.Mapping, num: nat, u: nat, v: nat)
    requires Backed(m) && num < 2 && RangeOf(u) == RangeOf(v)
    ensures var x, y := LocaliseCodeAddress(m, num, u), LocaliseCodeAddress(m, num, v);
      RangeOf(x) == RangeOf(y) && (x != 0 ==> x % 512 == u % 512 && RegionOf(x) > 0)
  {
    hide L.ClassifyAddress9, L.ClassifyAddress7, L.LocaliseAddress, Backed, Number;
    PositiveSizes(m);
    Uncut(u, v, 0x1_0000_0000);
    if u < 0x1_0000_0000 {
      if num == 0 {
        SameRegion9(m, u, v);
      } else {
        SameRegion7(m, u, v);
      }
      var r := L.Classify(m, num, u);
      if L.Executable(r) {
        SameOffsetRange(m, r, num, u, v);
        var x, y := L.LocaliseAddress(m, r, num, u), L.LocaliseAddress(m, r, num, v);
        if x.Some? {
          RegionRange(Number(r), x.value, y.value);
          InNumber(r, x.value);
        }
      }
    }
  }

  lemma PositiveSizes(m: L.Mapping)
    requires Backed(m)
    ensures m.mainRamSize > 0 && (m.swram9.Some? ==> m.swram9.value.size > 0) && (m.swram7.Some? ==> m.swram7.value.size > 0)
  {
    hide L.ItcmSizeOk;
  }

  lemma InNumber(r: L.Region, x: nat)
    requires L.Executable(r) && x < 0x800_0000
    ensures RegionOf(Number(r) * 0x800_0000 + x) == Number(r) > 0
  {
    Quotient(Number(r) * 0x800_0000 + x, 0x800_0000, Number(r), x);
  }

  function CodeMap(m: L.Mapping, num: nat): Localisation
    requires m.mainRamSize > 0 && (m.swram9.Some? ==> m.swram9.value.size > 0) && (m.swram7.Some? ==> m.swram7.value.size > 0)
  {
    virt => LocaliseCodeAddress(m, num, virt)
  }

  /** What the recording of traces relies on holds of every mapping. */
  lemma MappedInRanges(m: L.Mapping, num: nat)
    requires Backed(m) && num < 2
    ensures Ranged(CodeMap(m, num))
  {
    hide LocaliseCodeAddress;
    forall u: nat, v: nat | RangeOf(u) == RangeOf(v)
      ensures RangeOf(CodeMap(m, num)(u)) == RangeOf(CodeMap(m, num)(v))
    {
      LocalRange(m, num, u, v);
    }
    forall v: nat | CodeMap(m, num)(v) != 0 ensures CodeMap(m, num)(v) % 512 == v % 512 && RegionOf(CodeMap(m, num)(v)) > 0 {
      LocalRange(m, num, v, v);
    }
  }
}
