/**
  Address localisation and fast dispatch (src/ARMJIT_Memory.cpp, src/ARMJIT.cpp).

  Publication enters a block at the local address of its start. Dispatch instead caches, for the
  region of the last lookup, a window of addresses with a pointer into the fast table, and only
  adds the distance from the window's start. Both must reach the same slot.
*/
module LocalAddresses {
  import opened Bits
  import opened Options

  datatype Region = Other | Itcm | Dtcm | Bios9 | MainRam | SharedWram | Io9 | Vram | Bios7 | Wram7 | Io7 | Wifi | Vwram
    | Bios9DSi | Bios7DSi | NwramA | NwramB | NwramC

  // The regions with a code index and a fast table.
  predicate Executable(r: Region) { r !in {Other, Dtcm, Io9, Io7, Wifi} }

  // A stretch of shared WRAM that a CPU sees: its offset and size.
  datatype Bank = Bank(offset: nat, size: nat)

  /**
    The mapping state. NWRAM windows are [start, end); within them, `nwramAt` gives for a CPU, a
    bank and a block number the offset of the backing, or none.
  */
  datatype Mapping = Mapping(
    dsi: bool, mainRamSize: nat, itcmSize: nat, dtcm: Option<Bank>, swram9: Option<Bank>, swram7: Option<Bank>,
    bios9Locked: bool, bios9Off: bool, bios7Locked: bool, bios7Off: bool, nwramOn: (nat) -> bool,
    nwramStart: (nat, nat) -> nat, nwramEnd: (nat, nat) -> nat, nwramAt: (nat, nat, nat) -> Option<nat>)
  {
    // What the registers behind the mapping can produce.
    ghost predicate Valid() {
      && mainRamSize in {0x40_0000, 0x100_0000} && ItcmSizeOk(itcmSize)
      && (swram9.Some? ==> SharedOk(swram9.value)) && (swram7.Some? ==> SharedOk(swram7.value))
      && (forall cpu, bank :: nwramStart(cpu, bank) % BlockSize(bank) == 0 && nwramEnd(cpu, bank) % BlockSize(bank) == 0)
      && (forall cpu, bank, block | nwramAt(cpu, bank, block).Some? :: nwramAt(cpu, bank, block).value % BlockSize(bank) == 0)
    }
  }

  ghost predicate SharedOk(b: Bank) {
    b in {Bank(0, 0x8000), Bank(0, 0x4000), Bank(0x4000, 0x4000)}
  }

  function BlockSize(bank: nat): nat { if bank == 0 then 0x1_0000 else 0x8000 }

  // The sizes 0x200 << n, for n up to 31 in a 32-bit word.
  ghost predicate ItcmSizeOk(size: nat) {
    size % 0x100_0000 == 0 || (size < 0x100_0000 && exists n: nat :: n < 15 && size == 0x200 * Pow2(n))
  }

  function ItcmSize(n: nat): nat { 0x200 * Pow2(n) % 0x1_0000_0000 }

  lemma ItcmSizesOk(n: nat)
    requires n < 32
    ensures ItcmSizeOk(ItcmSize(n))
  {
    if n < 15 {
      Pow2Grows(n, 14);
      assert Pow2(14) == 0x4000 by {
        Pow2Split(7, 7);
        assert Pow2(7) == 0x80;
      }
    } else {
      Pow2Split(15, n - 15);
      assert Pow2(15) == 0x8000 by {
        Pow2Split(7, 8);
        assert Pow2(7) == 0x80 && Pow2(8) == 2 * Pow2(7);
      }
      assert 0x200 * Pow2(n) == 0x100_0000 * Pow2(n - 15);
    }
  }

  predicate InDtcm(m: Mapping, addr: U32) {
    m.dtcm.Some? && m.dtcm.value.offset <= addr < m.dtcm.value.offset + m.dtcm.value.size
  }

  predicate InNwram(m: Mapping, cpu: nat, bank: nat, addr: U32) {
    m.nwramStart(cpu, bank) <= addr < m.nwramEnd(cpu, bank)
  }

  // -------- classification --------

  function ClassifyAddress9(m: Mapping, addr: U32): Region {
    var top := addr / 0x100_0000;
    if addr < m.itcmSize then Itcm
    else if InDtcm(m, addr) then Dtcm
    else if m.dsi && addr >= 0xFFFF_0000 && !m.bios9Off then
      if addr >= 0xFFFF_8000 && m.bios9Locked then Other else Bios9DSi
    else if addr / 0x1000 == 0xF_FFF0 then Bios9
    else if top == 0x02 then MainRam
    else if top == 0x03 then
      if m.dsi && m.nwramOn(0) && InNwram(m, 0, 0, addr) then NwramA
      else if m.dsi && m.nwramOn(0) && InNwram(m, 0, 1, addr) then NwramB
      else if m.dsi && m.nwramOn(0) && InNwram(m, 0, 2, addr) then NwramC
      else if m.swram9.Some? then SharedWram
      else Other
    else if top == 0x04 then Io9
    else if top == 0x06 then Vram
    else if top == 0x0C && m.dsi then MainRam
    else Other
  }

  function ClassifyAddress7(m: Mapping, addr: U32): Region {
    var top := addr / 0x80_0000;
    if m.dsi && addr < 0x1_0000 && !m.bios7Off then
      if addr >= 0x8000 && m.bios7Locked then Other else Bios7DSi
    else if addr < 0x4000 then Bios7
    else if top == 0x04 || top == 0x05 then MainRam
    else if top == 0x06 || top == 0x07 then
      if m.dsi && m.nwramOn(1) && InNwram(m, 1, 0, addr) then NwramA
      else if m.dsi && m.nwramOn(1) && InNwram(m, 1, 1, addr) then NwramB
      else if m.dsi && m.nwramOn(1) && InNwram(m, 1, 2, addr) then NwramC
      else if addr < 0x0380_0000 && m.swram7.Some? then SharedWram
      else Wram7
    else if top == 0x08 then Io7
    else if top == 0x09 then Wifi
    else if top == 0x0C || top == 0x0D then Vwram
    else if (top == 0x18 || top == 0x19) && m.dsi then MainRam
    else Other
  }

  function Classify(m: Mapping, num: nat, addr: U32): Region {
    if num == 0 then ClassifyAddress9(m, addr) else ClassifyAddress7(m, addr)
  }

  // -------- the two address computations --------

  function Nwram(m: Mapping, num: nat, bank: nat, addr: U32): Option<nat> {
    m.nwramAt(num, bank, addr / BlockSize(bank))
  }

  /** The offset inside a region's memory; none where nothing is mapped. */
  function LocaliseAddress(m: Mapping, r: Region, num: nat, addr: U32): Option<nat>
    requires m.mainRamSize > 0 && (m.swram9.Some? ==> m.swram9.value.size > 0) && (m.swram7.Some? ==> m.swram7.value.size > 0)
  {
    match r
    case Itcm => Some(addr % 0x8000)
    case MainRam => Some(addr % m.mainRamSize)
    case Bios9 => Some(addr % 0x1000)
    case Bios7 => Some(addr % 0x4000)
    case SharedWram =>
      var bank := if num == 0 then m.swram9 else m.swram7;
      if bank.None? then None else Some(addr % bank.value.size + bank.value.offset)
    case Wram7 => Some(addr % 0x1_0000)
    case Vram => Some(addr % 0x10_0000)
    case Vwram => Some(addr % 0x4_0000)
    case NwramA => LocaliseNwram(m, num, 0, addr)
    case NwramB => LocaliseNwram(m, num, 1, addr)
    case NwramC => LocaliseNwram(m, num, 2, addr)
    case Bios9DSi => Some(addr % 0x1_0000)
    case Bios7DSi => Some(addr % 0x1_0000)
    case _ => None
  }

  function LocaliseNwram(m: Mapping, num: nat, bank: nat, addr: U32): Option<nat> {
    var at := Nwram(m, num, bank, addr);
    if at.None? then None else Some(at.value + addr % BlockSize(bank))
  }

  // A window: where the region's memory at its start is, its start, and its size.
  datatype Window = Window(memoryOffset: nat, start: nat, size: nat)

  function Around(addr: U32, size: nat, offset: nat): (w: Option<Window>)
    requires size > 0
    ensures w.Some? && w.value.start <= addr < w.value.start + w.value.size
  {
    Some(Window(offset, addr - addr % size, size))
  }

  function GetMirrorLocation(m: Mapping, r: Region, num: nat, addr: U32): Option<Window>
    requires m.mainRamSize > 0 && (m.swram9.Some? ==> m.swram9.value.size > 0) && (m.swram7.Some? ==> m.swram7.value.size > 0)
  {
    match r
    case Itcm => if num == 0 then Around(addr, 0x8000, 0) else None
    case MainRam => Around(addr, m.mainRamSize, 0)
    case Bios9 => if num == 0 then Around(addr, 0x1000, 0) else None
    case Bios7 => if num == 1 then Some(Window(0, 0, 0x4000)) else None
    case SharedWram =>
      var bank := if num == 0 then m.swram9 else m.swram7;
      if bank.None? then None else Around(addr, bank.value.size, bank.value.offset)
    case Wram7 =>
      // NWRAM B and C can replace either half of the private WRAM on the DSi.
      var size := if m.dsi then 0x8000 else 0x1_0000;
      if num == 1 then Around(addr, size, (addr - addr % size) % 0x1_0000) else None
    case Vram => if num == 0 then Around(addr, 0x10_0000, 0) else None
    case Vwram => if num == 1 then Around(addr, 0x4_0000, 0) else None
    case NwramA => MirrorNwram(m, num, 0, addr)
    case NwramB => MirrorNwram(m, num, 1, addr)
    case NwramC => MirrorNwram(m, num, 2, addr)
    case Bios9DSi => if num == 0 then Some(Window(0, addr - addr % 0x1_0000, if m.bios9Locked then 0x8000 else 0x1_0000)) else None
    case Bios7DSi => if num == 1 then Some(Window(0, addr - addr % 0x1_0000, if m.bios7Locked then 0x8000 else 0x1_0000)) else None
    case _ => None
  }

  function MirrorNwram(m: Mapping, num: nat, bank: nat, addr: U32): Option<Window> {
    var at := Nwram(m, num, bank, addr);
    if at.None? then None else Around(addr, BlockSize(bank), at.value)
  }

  // -------- dispatch --------

  // The window and the region a lookup at addr caches.
  function SetupExecutableRegion(m: Mapping, num: nat, addr: U32): Option<Window>
    requires m.mainRamSize > 0 && (m.swram9.Some? ==> m.swram9.value.size > 0) && (m.swram7.Some? ==> m.swram7.value.size > 0)
  {
    var r := Classify(m, num, addr);
    if Executable(r) then GetMirrorLocation(m, r, num, addr) else None
  }

  // Whether an address is taken to be in the cached window; the window's end wraps around.
  predicate InWindow(w: Window, addr: U32) {
    w.start <= addr < (w.start + w.size) % 0x1_0000_0000
  }

  /** Where dispatch looks, within the region of the window. */
  function FastOffset(w: Window, addr: U32): nat
    requires w.start <= addr
  {
    w.memoryOffset + (addr - w.start)
  }

  // An executable address has a local offset, and publication enters blocks there.
  ghost predicate Runs(m: Mapping, num: nat, addr: U32)
    requires m.Valid() && num < 2
  {
    Executable(Classify(m, num, addr)) && LocaliseAddress(m, Classify(m, num, addr), num, addr).Some?
  }

  // -------- inside a window --------

  // A window holds exactly the addresses of its block.
  lemma AroundIs(addr0: U32, addr: U32, size: nat, offset: nat)
    requires size > 0
    ensures var w := Around(addr0, size, offset).value;
      w.start <= addr < w.start + size <==> addr / size == addr0 / size
    ensures var w := Around(addr0, size, offset).value;
      addr / size == addr0 / size ==> FastOffset(w, addr) == offset + addr % size
  {
    var q := addr0 / size;
    assert addr0 - addr0 % size == q * size;
    assert addr == addr / size * size + addr % size;
    if addr / size < q {
      assert (addr / size + 1) * size <= q * size;
    } else if addr / size > q {
      assert (q + 1) * size <= addr / size * size;
    }
  }

  // -------- the regions of a window --------

  // A boundary that is a multiple of the window's size does not cut it.
  lemma BoundaryKeeps(a: nat, b: nat, size: nat, bound: nat)
    requires size > 0 && a / size == b / size && bound % size == 0
    ensures a < bound <==> b < bound
  {
    var k := bound / size;
    assert bound == k * size;
    BelowMultiple(a, size, k);
    BelowMultiple(b, size, k);
  }

  lemma BelowMultiple(a: nat, size: nat, k: nat)
    requires size > 0
    ensures a < k * size <==> a / size < k
  {
    if a / size < k {
      assert (a / size + 1) * size <= k * size;
    } else {
      assert k * size <= a / size * size;
    }
  }

  // The end of ITCM lies on a multiple of any window size, or below the window's first multiple.
  lemma ItcmKeeps(m: Mapping, a: U32, b: U32, size: nat)
    requires m.Valid() && size in {0x1000, 0x8000, 0x40_0000, 0x100_0000, 0x4000, 0x1_0000, 0x10_0000}
    requires a / size == b / size && a >= 0x100_0000
    ensures a < m.itcmSize <==> b < m.itcmSize
  {
    hide *;
    ItcmIsSmall(m);
    if m.itcmSize % 0x100_0000 == 0 {
      MultipleOfMultiple(m.itcmSize, 0x100_0000, size);
      BoundaryKeeps(a, b, size, m.itcmSize);
    } else {
      BoundaryKeeps(a, b, size, 0x100_0000);
    }
  }

  // The windows of BIOS, main RAM and VRAM, on the ARM9.
  lemma Main9(m: Mapping, a: U32, b: U32)
    requires m.Valid() && ClassifyAddress9(m, a) == MainRam && a / m.mainRamSize == b / m.mainRamSize
    requires ClassifyAddress9(m, b) != Dtcm
    ensures ClassifyAddress9(m, b) == MainRam
  {
    ItcmKeeps(m, a, b, m.mainRamSize);
    assert a / 0x100_0000 == b / 0x100_0000;
  }

  lemma Vram9(m: Mapping, a: U32, b: U32)
    requires m.Valid() && ClassifyAddress9(m, a) == Vram && a / 0x10_0000 == b / 0x10_0000
    requires Executable(ClassifyAddress9(m, b))
    ensures ClassifyAddress9(m, b) == Vram
  {
    ItcmKeeps(m, a, b, 0x10_0000);
    assert a / 0x100_0000 == b / 0x100_0000;
  }

  lemma Bios9Window(m: Mapping, a: U32, b: U32)
    requires m.Valid() && ClassifyAddress9(m, a) == Bios9 && a / 0x1000 == b / 0x1000
    requires Executable(ClassifyAddress9(m, b))
    ensures ClassifyAddress9(m, b) == Bios9
  {
    ItcmKeeps(m, a, b, 0x1000);
  }

  lemma BiosDSi9(m: Mapping, a: U32, b: U32)
    requires m.Valid() && ClassifyAddress9(m, a) == Bios9DSi && a / 0x1_0000 == b / 0x1_0000
    requires Executable(ClassifyAddress9(m, b))
    ensures ClassifyAddress9(m, b) == Bios9DSi
  {
    ItcmKeeps(m, a, b, 0x1_0000);
  }

  // Below the end of a small ITCM nothing else is executable in ITCM's window.
  lemma Itcm9(m: Mapping, a: U32, b: U32)
    requires m.Valid() && ClassifyAddress9(m, a) == Itcm && a / 0x8000 == b / 0x8000
    requires Executable(ClassifyAddress9(m, b))
    ensures ClassifyAddress9(m, b) == Itcm
  {
    hide ItcmSizeOk, InDtcm, InNwram, SharedOk;
    ItcmIsSmall(m);
    if m.itcmSize % 0x100_0000 == 0 {
      MultipleOfMultiple(m.itcmSize, 0x100_0000, 0x8000);
      BoundaryKeeps(a, b, 0x8000, m.itcmSize);
    } else {
      BoundaryKeeps(a, b, 0x8000, 0x100_0000);
    }
  }

  lemma ItcmIsSmall(m: Mapping)
    requires m.Valid()
    ensures m.itcmSize % 0x100_0000 == 0 || m.itcmSize < 0x100_0000
  {
  }

  // Windows within 0x03000000: NWRAM windows are made of whole blocks.
  lemma NwramKeeps(m: Mapping, cpu: nat, bank: nat, a: U32, b: U32, size: nat)
    requires m.Valid() && size > 0 && a / size == b / size && BlockSize(bank) % size == 0
    ensures InNwram(m, cpu, bank, a) <==> InNwram(m, cpu, bank, b)
  {
    MultipleOfMultiple(m.nwramStart(cpu, bank), BlockSize(bank), size);
    MultipleOfMultiple(m.nwramEnd(cpu, bank), BlockSize(bank), size);
    BoundaryKeeps(a, b, size, m.nwramStart(cpu, bank));
    BoundaryKeeps(a, b, size, m.nwramEnd(cpu, bank));
  }

  lemma MultipleOfMultiple(x: nat, y: nat, z: nat)
    requires y > 0 && z > 0 && x % y == 0 && y % z == 0
    ensures x % z == 0
  {
    var p, q := x / y, y / z;
    assert x == p * q * z;
    Quotient(x, z, p * q, 0);
  }

  // The region of the shared area at 0x03000000 is the same all over a window of at most one block.
  lemma Shared9(m: Mapping, a: U32, b: U32, size: nat)
    requires m.Valid() && size in {0x4000, 0x8000} && a / size == b / size && a / 0x100_0000 == 0x03
    requires Executable(ClassifyAddress9(m, a)) && ClassifyAddress9(m, b) != Dtcm && a >= m.itcmSize
    ensures ClassifyAddress9(m, b) == ClassifyAddress9(m, a)
  {
    ItcmKeeps(m, a, b, size);
    NwramKeeps(m, 0, 0, a, b, size);
    NwramKeeps(m, 0, 1, a, b, size);
    NwramKeeps(m, 0, 2, a, b, size);
    assert b / 0x100_0000 == 0x03;
  }

  // NWRAM A takes precedence, so its larger windows are not cut either.
  lemma NwramA9(m: Mapping, a: U32, b: U32)
    requires m.Valid() && a / 0x1_0000 == b / 0x1_0000 && ClassifyAddress9(m, a) == NwramA
    requires ClassifyAddress9(m, b) != Dtcm
    ensures ClassifyAddress9(m, b) == NwramA
  {
    ItcmKeeps(m, a, b, 0x1_0000);
    NwramKeeps(m, 0, 0, a, b, 0x1_0000);
    assert b / 0x100_0000 == 0x03;
  }

  /** On the ARM9 the executable addresses of a window are all of one region. */
  lemma OneRegion9(m: Mapping, a: U32, b: U32)
    requires m.Valid() && SetupExecutableRegion(m, 0, a).Some?
    requires var w := SetupExecutableRegion(m, 0, a).value; w.start <= b < w.start + w.size
    requires Executable(ClassifyAddress9(m, b))
    ensures ClassifyAddress9(m, b) == ClassifyAddress9(m, a)
  {
    var r := ClassifyAddress9(m, a);
    if r == Itcm {
      AroundIs(a, b, 0x8000, 0);
      Itcm9(m, a, b);
    } else if r == MainRam {
      AroundIs(a, b, m.mainRamSize, 0);
      Main9(m, a, b);
    } else if r == Bios9 {
      AroundIs(a, b, 0x1000, 0);
      Bios9Window(m, a, b);
    } else if r == Bios9DSi {
      BiosDSi9(m, a, b);
    } else if r == Vram {
      AroundIs(a, b, 0x10_0000, 0);
      Vram9(m, a, b);
    } else if r == SharedWram {
      AroundIs(a, b, m.swram9.value.size, m.swram9.value.offset);
      Shared9(m, a, b, m.swram9.value.size);
    } else if r == NwramA {
      AroundIs(a, b, 0x1_0000, Nwram(m, 0, 0, a).value);
      NwramA9(m, a, b);
    } else if r == NwramB {
      AroundIs(a, b, 0x8000, Nwram(m, 0, 1, a).value);
      Shared9(m, a, b, 0x8000);
    } else {
      assert r == NwramC;
      AroundIs(a, b, 0x8000, Nwram(m, 0, 2, a).value);
      Shared9(m, a, b, 0x8000);
    }
  }

  lemma Shared7(m: Mapping, a: U32, b: U32, size: nat)
    requires m.Valid() && size in {0x4000, 0x8000} && a / size == b / size && a / 0x100_0000 == 0x03
    ensures ClassifyAddress7(m, b) == ClassifyAddress7(m, a)
  {
    NwramKeeps(m, 1, 0, a, b, size);
    NwramKeeps(m, 1, 1, a, b, size);
    NwramKeeps(m, 1, 2, a, b, size);
    assert b / 0x80_0000 == a / 0x80_0000;
    BoundaryKeeps(a, b, size, 0x0380_0000);
  }

  lemma NwramA7(m: Mapping, a: U32, b: U32)
    requires m.Valid() && a / 0x1_0000 == b / 0x1_0000 && ClassifyAddress7(m, a) == NwramA
    ensures ClassifyAddress7(m, b) == NwramA
  {
    NwramKeeps(m, 1, 0, a, b, 0x1_0000);
    assert b / 0x80_0000 == a / 0x80_0000;
  }

  // Without the DSi's memory the private WRAM is not cut.
  lemma Wram7Window(m: Mapping, a: U32, b: U32)
    requires m.Valid() && !m.dsi && a / 0x1_0000 == b / 0x1_0000 && ClassifyAddress7(m, a) == Wram7
    ensures ClassifyAddress7(m, b) == Wram7
  {
    assert b / 0x80_0000 == a / 0x80_0000;
    BoundaryKeeps(a, b, 0x1_0000, 0x0380_0000);
  }

  lemma Main7(m: Mapping, a: U32, b: U32)
    requires m.Valid() && a / m.mainRamSize == b / m.mainRamSize && ClassifyAddress7(m, a) == MainRam
    ensures ClassifyAddress7(m, b) == MainRam
  {
    assert b / 0x100_0000 == a / 0x100_0000;
  }

  lemma Vwram7(m: Mapping, a: U32, b: U32)
    requires m.Valid() && a / 0x4_0000 == b / 0x4_0000 && ClassifyAddress7(m, a) == Vwram
    ensures ClassifyAddress7(m, b) == Vwram
  {
    assert b / 0x80_0000 == a / 0x80_0000;
  }

  lemma Bios7s(m: Mapping, a: U32, b: U32)
    requires m.Valid() && ClassifyAddress7(m, a) in {Bios7, Bios7DSi}
    requires var w := GetMirrorLocation(m, ClassifyAddress7(m, a), 1, a).value; w.start <= b < w.start + w.size
    ensures ClassifyAddress7(m, b) == ClassifyAddress7(m, a)
  {
  }

  /** On the ARM7 a window is of one region altogether. */
  lemma OneRegion7(m: Mapping, a: U32, b: U32)
    requires m.Valid() && SetupExecutableRegion(m, 1, a).Some?
    requires var w := SetupExecutableRegion(m, 1, a).value; w.start <= b < w.start + w.size
    ensures ClassifyAddress7(m, b) == ClassifyAddress7(m, a)
  {
    hide ClassifyAddress7, ItcmSizeOk, InNwram;
    var r := ClassifyAddress7(m, a);
    if r == MainRam {
      AroundIs(a, b, m.mainRamSize, 0);
      Main7(m, a, b);
    } else if r == Vwram {
      AroundIs(a, b, 0x4_0000, 0);
      Vwram7(m, a, b);
    } else if r == SharedWram {
      AroundIs(a, b, m.swram7.value.size, m.swram7.value.offset);
      SharedIs7(m, a);
      Shared7(m, a, b, m.swram7.value.size);
    } else if r == Wram7 {
      SharedIs7(m, a);
      var size := if m.dsi then 0x8000 else 0x1_0000;
      AroundIs(a, b, size, (a - a % size) % 0x1_0000);
      if m.dsi {
        Shared7(m, a, b, 0x8000);
      } else {
        Wram7Window(m, a, b);
      }
    } else if r == NwramA {
      AroundIs(a, b, 0x1_0000, Nwram(m, 1, 0, a).value);
      NwramA7(m, a, b);
    } else if r == NwramB {
      SharedIs7(m, a);
      AroundIs(a, b, 0x8000, Nwram(m, 1, 1, a).value);
      Shared7(m, a, b, 0x8000);
    } else if r == NwramC {
      SharedIs7(m, a);
      AroundIs(a, b, 0x8000, Nwram(m, 1, 2, a).value);
      Shared7(m, a, b, 0x8000);
    } else {
      Bios7s(m, a, b);
    }
  }

  lemma SharedIs7(m: Mapping, a: U32)
    requires ClassifyAddress7(m, a) in {SharedWram, Wram7, NwramA, NwramB, NwramC}
    ensures a / 0x100_0000 == 0x03
  {
  }

  // -------- slots --------

  // In a window of a region, the distance from the start gives the local offset.
  lemma SlotInRegion(m: Mapping, r: Region, num: nat, a: U32, b: U32)
    requires m.Valid() && num < 2 && GetMirrorLocation(m, r, num, a).Some?
    requires var w := GetMirrorLocation(m, r, num, a).value; w.start <= b < w.start + w.size
    ensures LocaliseAddress(m, r, num, b) == Some(FastOffset(GetMirrorLocation(m, r, num, a).value, b))
  {
    hide ItcmSizeOk, Around, FastOffset;
    match r
    case Itcm => SlotAround(a, b, 0x8000, 0);
    case MainRam => SlotAround(a, b, m.mainRamSize, 0);
    case Bios9 => SlotAround(a, b, 0x1000, 0);
    case Vram => SlotAround(a, b, 0x10_0000, 0);
    case Vwram => SlotAround(a, b, 0x4_0000, 0);
    case SharedWram =>
      var bank := if num == 0 then m.swram9.value else m.swram7.value;
      SlotAround(a, b, bank.size, bank.offset);
    case Wram7 => Wram7Slot(m, a, b);
    case NwramA => SlotAround(a, b, 0x1_0000, Nwram(m, num, 0, a).value);
      SameBlock(a, b, 0x1_0000, Nwram(m, num, 0, a).value);
    case NwramB => SlotAround(a, b, 0x8000, Nwram(m, num, 1, a).value);
      SameBlock(a, b, 0x8000, Nwram(m, num, 1, a).value);
    case NwramC => SlotAround(a, b, 0x8000, Nwram(m, num, 2, a).value);
      SameBlock(a, b, 0x8000, Nwram(m, num, 2, a).value);
    case _ => BiosSlot(m, r, num, a, b);
  }

  lemma SlotAround(a: U32, b: U32, size: nat, offset: nat)
    requires size > 0
    requires var w := Around(a, size, offset).value; w.start <= b < w.start + w.size
    ensures FastOffset(Around(a, size, offset).value, b) == offset + b % size
  {
    AroundIs(a, b, size, offset);
  }

  lemma SameBlock(a: U32, b: U32, size: nat, offset: nat)
    requires size > 0
    requires var w := Around(a, size, offset).value; w.start <= b < w.start + w.size
    ensures a / size == b / size
  {
    AroundIs(a, b, size, offset);
  }

  lemma BiosSlot(m: Mapping, r: Region, num: nat, a: U32, b: U32)
    requires m.Valid() && num < 2 && GetMirrorLocation(m, r, num, a).Some? && r in {Bios7, Bios9DSi, Bios7DSi}
    requires var w := GetMirrorLocation(m, r, num, a).value; w.start <= b < w.start + w.size
    ensures LocaliseAddress(m, r, num, b) == Some(FastOffset(GetMirrorLocation(m, r, num, a).value, b))
  {
    hide ItcmSizeOk, SharedOk, Around;
    if r == Bios7 {
      assert b % 0x4000 == b;
    } else {
      LowHalfword(a, b);
    }
  }

  lemma LowHalfword(a: U32, b: U32)
    requires a - a % 0x1_0000 <= b < a - a % 0x1_0000 + 0x1_0000
    ensures b - (a - a % 0x1_0000) == b % 0x1_0000
  {
    assert a - a % 0x1_0000 == a / 0x1_0000 * 0x1_0000;
    Quotient(b, 0x1_0000, a / 0x1_0000, b - a / 0x1_0000 * 0x1_0000);
  }

  lemma Wram7Slot(m: Mapping, a: U32, b: U32)
    requires m.Valid()
    requires var w := GetMirrorLocation(m, Wram7, 1, a).value; w.start <= b < w.start + w.size
    ensures FastOffset(GetMirrorLocation(m, Wram7, 1, a).value, b) == b % 0x1_0000
  {
    hide ItcmSizeOk;
    var size := if m.dsi then 0x8000 else 0x1_0000;
    AroundIs(a, b, size, (a - a % size) % 0x1_0000);
    HalfOffset(a, b, size);
  }

  lemma HalfOffset(a: U32, b: U32, size: nat)
    requires size in {0x8000, 0x1_0000} && a / size == b / size
    ensures (a - a % size) % 0x1_0000 + b % size == b % 0x1_0000
  {
    var q := a / size;
    assert a - a % size == q * size && b == q * size + b % size;
    if size == 0x8000 {
      assert q == q / 2 * 2 + q % 2;
      assert q * size == q / 2 * 0x1_0000 + q % 2 * 0x8000;
      Quotient(q * size, 0x1_0000, q / 2, q % 2 * 0x8000);
      Quotient(b, 0x1_0000, q / 2, q % 2 * 0x8000 + b % size);
    } else {
      Quotient(q * size, 0x1_0000, q, 0);
    }
  }

  /**
    Fast dispatch: an executable address that hits the window cached for another one is looked
    up in the same region, at the very offset where publication enters blocks of this address.
  */
  lemma DispatchReachesPublication(m: Mapping, num: nat, cached: U32, addr: U32)
    requires m.Valid() && num < 2 && SetupExecutableRegion(m, num, cached).Some?
    requires InWindow(SetupExecutableRegion(m, num, cached).value, addr) && Executable(Classify(m, num, addr))
    ensures Classify(m, num, addr) == Classify(m, num, cached)
    ensures LocaliseAddress(m, Classify(m, num, addr), num, addr) ==
      Some(FastOffset(SetupExecutableRegion(m, num, cached).value, addr))
  {
    hide ClassifyAddress9, ClassifyAddress7, GetMirrorLocation, LocaliseAddress;
    if num == 0 {
      OneRegion9(m, cached, addr);
    } else {
      OneRegion7(m, cached, addr);
    }
    SlotInRegion(m, Classify(m, num, cached), num, cached, addr);
  }

  /** A window can be set up for exactly the executable addresses that have a backing, and it holds them. */
  lemma WindowIffBacked(m: Mapping, num: nat, addr: U32)
    requires m.Valid() && num < 2
    ensures SetupExecutableRegion(m, num, addr).Some? <==> Runs(m, num, addr)
    ensures SetupExecutableRegion(m, num, addr).Some? ==>
      var w := SetupExecutableRegion(m, num, addr).value; w.start <= addr < w.start + w.size
  {
    hide ClassifyAddress9, ClassifyAddress7, ItcmSizeOk, Around;
    if num == 0 {
      RegionsOf9(m, addr);
    } else {
      RegionsOf7(m, addr);
    }
  }

  lemma RegionsOf9(m: Mapping, addr: U32)
    ensures var r := ClassifyAddress9(m, addr);
      r !in {Bios7, Wram7, Vwram, Bios7DSi} && (r == Bios9DSi && m.bios9Locked ==> addr % 0x1_0000 < 0x8000)
  {
  }

  lemma RegionsOf7(m: Mapping, addr: U32)
    ensures var r := ClassifyAddress7(m, addr);
      r !in {Itcm, Bios9, Vram, Bios9DSi} && (r == Bios7 ==> addr < 0x4000)
      && (r == Bios7DSi && m.bios7Locked ==> addr % 0x1_0000 < 0x8000)
  {
  }
}
