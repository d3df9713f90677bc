/**
  The ARM9 protection unit (src/CP15.cpp; NDS::SetARM9RegionTimings in src/NDS.cpp).

  Eight regions, of which higher numbered ones take precedence, give each 4 KiB page its
  permissions and cache attributes. The emulator keeps them expanded in two page maps, for
  user and privileged mode, and derives access timings from them. Writes to the CP15 registers
  update maps and timings incrementally; what they must equal is defined here from the
  registers alone.
*/
module ProtectionUnits {
  import opened Bits

  const PAGES := 0x10_0000

  // The n-th group of two or four bits of a word.
  function Pair(w: nat, n: nat): nat {
    if n == 0 then w % 4 else Pair(w / 4, n - 1)
  }

  function Nibble(w: nat, n: nat): nat {
    if n == 0 then w % 16 else Nibble(w / 16, n - 1)
  }

  // x with its low bits cleared, for a power of two m.
  function AlignDown(x: nat, m: nat): (a: nat)
    requires m > 0
    ensures a <= x < a + m
  {
    x - x % m
  }

  // -------- registers --------

  datatype Registers = Registers(
    control: bv32, codeCacheable: U32, dataCacheable: U32, dataCacheWrite: U32, codeRW: U32, dataRW: U32, regions: seq<U32>)
  {
    predicate Valid() { |regions| == 8 }

    predicate Enabled() { control & 0x1 != 0 }

    predicate DataCacheOn() { control & 0x4 != 0 }

    predicate CodeCacheOn() { control & 0x1000 != 0 }
  }

  function Size(rgn: U32): (bits: nat)
    ensures bits <= 20
  {
    if rgn / 2 % 32 > 11 then rgn / 2 % 32 - 11 else 0
  }

  function First(rgn: U32): nat { AlignDown(rgn / 0x1000, Pow2(Size(rgn))) }

  function Last(rgn: U32): nat { First(rgn) + Pow2(Size(rgn)) }

  predicate InRegion(rgn: U32, p: nat) { rgn % 2 == 1 && First(rgn) <= p < Last(rgn) }

  lemma AlignedFits(x: nat, m: nat, n: nat)
    requires m > 0 && x < n * m
    ensures AlignDown(x, m) + m <= n * m
  {
    var q := x / m;
    assert x == q * m + x % m;
    MulKeepsOrder(n, q, m);
    MulKeepsOrder(q + 1, n, m);
  }

  // The forced alignment keeps a region inside the page maps.
  lemma RegionInMap(rgn: U32)
    ensures First(rgn) < Last(rgn) <= PAGES
  {
    var bits := Size(rgn);
    Pow2Split(20 - bits, bits);
    Pow2Split(10, 10);
    assert Pow2(10) == 1024;
    AlignedFits(rgn / 0x1000, Pow2(bits), Pow2(20 - bits));
  }

  // -------- what the maps must be --------

  // The bits of a page map entry: 0x01, 0x02, 0x04, 0x10, 0x20 and 0x40.
  datatype Attr = Attr(read: bool, write: bool, execute: bool, dataCache: bool, writeBuffer: bool, codeCache: bool)

  const NO_ACCESS := Attr(false, false, false, false, false, false)

  // With the unit disabled all accesses are allowed, uncached and unbuffered.
  const UNPROTECTED := Attr(true, true, true, false, false, false)

  predicate MayRead(rw: nat, user: bool) { rw in (if user then {2, 3, 6} else {1, 2, 3, 5, 6}) }

  predicate MayWrite(rw: nat, user: bool) { rw in (if user then {3} else {1, 2, 3}) }

  predicate MayExecute(rw: nat, user: bool) { rw in (if user then {2, 3, 6} else {1, 2, 3, 5, 6}) }

  // What region n gives to the pages it owns.
  function RegionAttr(regs: Registers, n: nat, user: bool): Attr {
    var datarw, coderw := Nibble(regs.dataRW, n), Nibble(regs.codeRW, n);
    var dataCache := regs.DataCacheOn() && Bit(regs.dataCacheable, n);
    Attr(MayRead(datarw, user), MayWrite(datarw, user), MayExecute(coderw, user),
         dataCache, dataCache && Bit(regs.dataCacheWrite, n), regs.CodeCacheOn() && Bit(regs.codeCacheable, n))
  }

  // The highest of the first n regions that a page is in.
  function Owner(regions: seq<U32>, n: nat, p: nat): (owner: int)
    requires n <= |regions|
    ensures -1 <= owner < n
  {
    if n == 0 then -1 else if InRegion(regions[n - 1], p) then n - 1 else Owner(regions, n - 1, p)
  }

  /** What a page's map entry must be. */
  function PageAttr(regs: Registers, p: nat, user: bool): Attr
    requires regs.Valid()
  {
    if !regs.Enabled() then UNPROTECTED
    else
      var owner := Owner(regs.regions, 8, p);
      if owner == -1 then NO_ACCESS else RegionAttr(regs, owner, user)
  }

  // The owner is the page's region that no higher one overlaps.
  lemma {:induction false} OwnerIs(regions: seq<U32>, k: nat, n: int, p: nat)
    requires k <= |regions|
    ensures Owner(regions, k, p) == n <==>
      if n == -1 then forall m | 0 <= m < k :: !InRegion(regions[m], p)
      else 0 <= n < k && InRegion(regions[n], p) && forall m | n < m < k :: !InRegion(regions[m], p)
  {
    if k > 0 {
      OwnerIs(regions, k - 1, n, p);
    }
  }

  /**
    With the unit enabled, a page outside all regions has no permission and is not cached; a page
    in a region that no higher one overlaps there has the attributes of that region.
  */
  lemma AttributesAre(regs: Registers, p: nat, user: bool)
    requires regs.Valid() && regs.Enabled()
    ensures (forall m | 0 <= m < 8 :: !InRegion(regs.regions[m], p)) ==> PageAttr(regs, p, user) == NO_ACCESS
    ensures forall n | 0 <= n < 8 && InRegion(regs.regions[n], p) && (forall m | n < m < 8 :: !InRegion(regs.regions[m], p)) ::
      PageAttr(regs, p, user) == RegionAttr(regs, n, user)
  {
    hide InRegion, RegionAttr;
    OwnerIs(regs.regions, 8, -1, p);
    forall n | 0 <= n < 8 && InRegion(regs.regions[n], p) && (forall m | n < m < 8 :: !InRegion(regs.regions[m], p))
      ensures Owner(regs.regions, 8, p) == n
    {
      OwnerIs(regs.regions, 8, n, p);
    }
  }

  // User and privileged mode differ in permissions, never in cache attributes.
  lemma SameCaching(regs: Registers, p: nat)
    requires regs.Valid()
    ensures var u, v := PageAttr(regs, p, true), PageAttr(regs, p, false);
      u.dataCache == v.dataCache && u.writeBuffer == v.writeBuffer && u.codeCache == v.codeCache
  {
  }

  /** A page that user mode may use in some way, privileged mode may use in the same way. */
  lemma PrivilegedMayMore(regs: Registers, p: nat)
    requires regs.Valid()
    ensures var u, v := PageAttr(regs, p, true), PageAttr(regs, p, false);
      (u.read ==> v.read) && (u.write ==> v.write && u.read) && (u.execute ==> v.execute)
  {
  }

  // Bus timings of 16 KiB: nonsequential 16 and 32 bit accesses, and sequential 32 bit ones.
  datatype Bus = Bus(n16: nat, n32: nat, s32: nat)

  // Access timings of a page: code fetches, and data accesses of the three kinds.
  datatype Timing = Timing(code: nat, n16: nat, n32: nat, s32: nat)

  const DATA_CACHE_TIMING := 3

  // Timings are bytes.
  function Shifted(t: nat, shift: nat): nat { t * Pow2(shift) % 0x100 }

  function PageTiming(a: Attr, bus: Bus, shift: nat): Timing {
    Timing(
      if a.codeCache then 0xFF else Shifted(bus.n32, shift),
      if a.dataCache then DATA_CACHE_TIMING else Shifted(bus.n16, shift),
      if a.dataCache then DATA_CACHE_TIMING else Shifted(bus.n32, shift),
      if a.dataCache then 1 else Shifted(bus.s32, shift))
  }

  // -------- CP15 writes --------

  const CONTROL_MASK: bv32 := 0x000F_F085

  // The legacy registers hold two permission bits a region, the extended ones four.
  function Spread(val: nat, n: nat): nat {
    if n == 0 then 0 else val % 4 + 16 * Spread(val / 4, n - 1)
  }

  lemma {:induction false} SpreadBound(val: nat, n: nat)
    ensures Spread(val, n) < Pow2(4 * n)
  {
    if n > 0 {
      SpreadBound(val / 4, n - 1);
      Pow2Split(4, 4 * (n - 1));
      assert Pow2(4) == 16;
    }
  }

  lemma SpreadFits(val: nat)
    ensures Spread(val, 8) < 0x1_0000_0000
  {
    SpreadBound(val, 8);
    WordSizes();
  }

  /** Each region keeps its permission, extended by two zero bits. */
  lemma {:induction false} SpreadNibble(val: nat, n: nat, k: nat)
    requires k < n
    ensures Nibble(Spread(val, n), k) == Pair(val, k)
  {
    var rest := Spread(val / 4, n - 1);
    assert Spread(val, n) / 16 == rest;
    if k > 0 {
      SpreadNibble(val / 4, n - 1, k - 1);
    }
  }

  function WrittenControl(old_: bv32, val: bv32): bv32 { (old_ & !CONTROL_MASK) | (val & CONTROL_MASK) }

  // The registers after a write to operation id.
  function Written(regs: Registers, id: nat, v: U32): Registers
    requires regs.Valid()
  {
    match id
    case 0x100 => regs.(control := WrittenControl(regs.control, v as bv32))
    case 0x200 => regs.(dataCacheable := v)
    case 0x201 => regs.(codeCacheable := v)
    case 0x300 => regs.(dataCacheWrite := v)
    case 0x500 => SpreadFits(v); regs.(dataRW := Spread(v, 8))
    case 0x501 => SpreadFits(v); regs.(codeRW := Spread(v, 8))
    case 0x502 => regs.(dataRW := v)
    case 0x503 => regs.(codeRW := v)
    case _ =>
      if IsRegionWrite(id) then regs.(regions := regs.regions[id / 16 % 16 := v]) else regs
  }

  predicate IsRegionWrite(id: nat) {
    id / 0x100 == 6 && id / 16 % 16 < 8 && id % 16 < 2
  }

  const RESET_REGISTERS := Registers(0x2078, 0, 0, 0, 0, 0, [0, 0, 0, 0, 0, 0, 0, 0])

  // The bits of the control register that the maps depend on.
  predicate SameControl(a: bv32, b: bv32) { a & 0x1005 == b & 0x1005 }

  predicate SameEnable(a: bv32, b: bv32) { a & 0x1 == b & 0x1 }

  lemma ControlBits(old_: bv32, val: bv32)
    ensures SameControl(WrittenControl(old_, val), val) && SameEnable(WrittenControl(old_, val), val)
  {
  }

  lemma SameControlSameBits(a: bv32, b: bv32)
    ensures SameControl(a, b) ==> a & 0x1 == b & 0x1 && a & 0x4 == b & 0x4 && a & 0x1000 == b & 0x1000
  {
  }

  lemma SameControlSamePages(was: Registers, now: Registers)
    requires was.Valid() && now == was.(control := now.control) && SameControl(was.control, now.control)
    ensures forall p, user :: PageAttr(now, p, user) == PageAttr(was, p, user)
  {
    SameControlSameBits(was.control, now.control);
  }

  // The regions for which two register values differ.
  function DifferentBits(a: U32, b: U32): (diff: seq<bool>)
    ensures |diff| == 8 && forall n | 0 <= n < 8 :: diff[n] == (Bit(a, n) != Bit(b, n))
  {
    seq(8, n requires 0 <= n < 8 => Bit(a, n) != Bit(b, n))
  }

  function DifferentNibbles(a: U32, b: U32): (diff: seq<bool>)
    ensures |diff| == 8 && forall n | 0 <= n < 8 :: diff[n] == (Nibble(a, n) != Nibble(b, n))
  {
    seq(8, n requires 0 <= n < 8 => Nibble(a, n) != Nibble(b, n))
  }

  // Bus timings as the CPU sees them: a nonsequential access outside main RAM costs three more.
  function CpuBus(mainRam: bool, wide: bool, nonseq: nat, seq_: nat): Bus {
    var penalty := if mainRam then 0 else 3;
    var n32 := if wide then nonseq else nonseq + seq_;
    var s32 := if wide then seq_ else seq_ + seq_;
    Bus((nonseq + penalty) % 0x100, (n32 + penalty) % 0x100, s32 % 0x100)
  }

  // Bus timings from first up to last have been set, the others are as they were.
  ghost predicate BusSet(was: seq<Bus>, now: seq<Bus>, first: nat, last: nat, bus: Bus) {
    |now| == |was| && forall i | 0 <= i < |was| :: now[i] == if first <= i < last then bus else was[i]
  }

  // -------- proof steps --------

  // Some region above n and below k contains the page.
  ghost predicate Overlaid(regions: seq<U32>, n: nat, k: nat, p: nat)
    requires k <= |regions|
  {
    exists m | n < m < k :: InRegion(regions[m], p)
  }

  lemma OwnerBelow(regions: seq<U32>, n: nat, p: nat)
    requires n < |regions| == 8
    ensures Owner(regions, 8, p) == n <==> InRegion(regions[n], p) && !Overlaid(regions, n, 8, p)
  {
    OwnerIs(regions, 8, n, p);
  }

  // What UpdatePURegion has found out about the higher regions up to k: where the one that
  // covers page i ends, and where the first one after i begins.
  ghost predicate Scanned(regions: seq<U32>, n: nat, k: nat, i: nat, end: nat, coveredEnd: nat, next: nat)
    requires n < k <= |regions|
  {
    && i <= coveredEnd && i < next <= end
    && (forall p | i <= p < coveredEnd :: Overlaid(regions, n, k, p))
    && (coveredEnd == i ==> forall p | i <= p < next :: !Overlaid(regions, n, k, p))
  }

  lemma ScanOne(regions: seq<U32>, n: nat, k: nat, i: nat, end: nat, coveredEnd: nat, next: nat, coveredEnd': nat, next': nat)
    requires n < k < |regions| && Scanned(regions, n, k, i, end, coveredEnd, next)
    requires coveredEnd' == if InRegion(regions[k], i) && Last(regions[k]) > coveredEnd then Last(regions[k]) else coveredEnd
    requires next' == if regions[k] % 2 == 1 && i < First(regions[k]) < next then First(regions[k]) else next
    ensures Scanned(regions, n, k + 1, i, end, coveredEnd', next')
  {
    hide First, Last;
    var k' := k + 1;
    forall p | i <= p < coveredEnd' ensures Overlaid(regions, n, k', p) {
      if p < coveredEnd {
        assert Overlaid(regions, n, k, p);
      } else {
        assert InRegion(regions[k], p);
      }
    }
    if coveredEnd' == i {
      forall p | i <= p < next' ensures !Overlaid(regions, n, k', p) {
        assert !Overlaid(regions, n, k, p);
        assert !InRegion(regions[k], p);
      }
    }
  }

  predicate SameCache(a: Attr, b: Attr) {
    a.dataCache == b.dataCache && a.codeCache == b.codeCache
  }

  // -------- the unit --------

  class ProtectionUnit {
    var regs: Registers
    const userMap: array<Attr>
    const privMap: array<Attr>
    const memTimings: array<Timing>

    // PU_Map: the map of the current mode.
    var userMode: bool

    var busTimings: seq<Bus>
    var clockShift: nat

    ghost predicate Shape()
      reads this
    {
      && regs.Valid() && |busTimings| == PAGES / 4
      && userMap.Length == privMap.Length == memTimings.Length == PAGES && userMap != privMap
    }

    ghost predicate MapsOk()
      requires Shape()
      reads this, userMap, privMap
    {
      forall p | 0 <= p < PAGES :: userMap[p] == PageAttr(regs, p, true) && privMap[p] == PageAttr(regs, p, false)
    }

    ghost predicate TimingsOk()
      requires Shape()
      reads this, memTimings
    {
      forall p | 0 <= p < PAGES :: memTimings[p] == PageTiming(PageAttr(regs, p, false), busTimings[p / 4], clockShift)
    }

    /** Maps and timings are those the registers call for, whatever the current mode. */
    ghost predicate Valid()
      reads this, userMap, privMap, memTimings
    {
      Shape() && MapsOk() && TimingsOk()
    }

    // What a page's timing is, given its privileged map entry.
    ghost function TimingOf(p: nat): Timing
      requires Shape() && p < PAGES
      reads this, privMap
    {
      PageTiming(privMap[p], busTimings[p / 4], clockShift)
    }

    // The timings of some pages follow from the map of the current mode.
    method UpdateRegionTimings(addrstart: nat, addrend: nat)
      requires Shape() && addrstart <= addrend <= PAGES
      requires forall p | addrstart <= p < addrend :: SameCache(userMap[p], privMap[p])
      modifies memTimings
      ensures forall p | 0 <= p < PAGES ::
        memTimings[p] == if addrstart <= p < addrend then TimingOf(p) else old(memTimings[p])
    {
      for i := addrstart to addrend
        invariant forall p | 0 <= p < PAGES ::
          memTimings[p] == if addrstart <= p < i then TimingOf(p) else old(memTimings[p])
      {
        var pu := if userMode then userMap[i] else privMap[i];
        memTimings[i] := PageTiming(pu, busTimings[i / 4], clockShift);
      }
    }

    // memset over a stretch of a page map.
    method Fill(map_: array<Attr>, from: nat, to: nat, value: Attr)
      requires from <= to <= map_.Length
      modifies map_
      ensures forall p | 0 <= p < map_.Length :: map_[p] == if from <= p < to then value else old(map_[p])
    {
      for i := from to to
        invariant forall p | 0 <= p < map_.Length :: map_[p] == if from <= p < i then value else old(map_[p])
      {
        map_[i] := value;
      }
    }

    // Where the higher regions leave off that cover page i, and where the next one begins.
    method ScanHigher(n: nat, i: nat, end: nat) returns (coveredEnd: nat, next: nat)
      requires regs.Valid() && n < 8 && i < end
      ensures Scanned(regs.regions, n, 8, i, end, coveredEnd, next)
    {
      coveredEnd, next := i, end;
      for higher := n + 1 to 8
        invariant Scanned(regs.regions, n, higher, i, end, coveredEnd, next)
      {
        ghost var c, x := coveredEnd, next;
        var region := regs.regions[higher];
        if region % 2 == 1 {
          var first, last := First(region), Last(region);
          if first <= i && i < last {
            coveredEnd := if last > coveredEnd then last else coveredEnd;
          } else if first > i {
            next := if first < next then first else next;
          }
        }
        ScanOne(regs.regions, n, higher, i, end, c, x, coveredEnd, next);
      }
    }

    // Region n owns the page.
    ghost predicate Owns(n: nat, p: nat)
      requires regs.Valid()
      reads this
    {
      regs.Enabled() && Owner(regs.regions, 8, p) == n
    }

    // The pages with number below `done` that region n owns have got its attributes and
    // timings; the others are as they were.
    twostate predicate Given(n: nat, done: nat)
      requires Shape()
      reads this, userMap, privMap, memTimings
    {
      && old(Shape())
      && (forall p | 0 <= p < PAGES :: userMap[p] == if Owns(n, p) && p < done then RegionAttr(regs, n, true) else old(userMap[p]))
      && (forall p | 0 <= p < PAGES :: privMap[p] == if Owns(n, p) && p < done then RegionAttr(regs, n, false) else old(privMap[p]))
      && (forall p | 0 <= p < PAGES :: memTimings[p] == if Owns(n, p) && p < done then TimingOf(p) else old(memTimings[p]))
    }

    // One stretch of pages gets a region's attributes.
    method GiveStretch(n: nat, from: nat, to: nat)
      requires Shape() && n < 8 && from <= to <= PAGES
      modifies userMap, privMap, memTimings
      ensures forall p | 0 <= p < PAGES :: userMap[p] == if from <= p < to then RegionAttr(regs, n, true) else old(userMap[p])
      ensures forall p | 0 <= p < PAGES :: privMap[p] == if from <= p < to then RegionAttr(regs, n, false) else old(privMap[p])
      ensures forall p | 0 <= p < PAGES :: memTimings[p] == if from <= p < to then TimingOf(p) else old(memTimings[p])
    {
      Fill(userMap, from, to, RegionAttr(regs, n, true));
      Fill(privMap, from, to, RegionAttr(regs, n, false));
      UpdateRegionTimings(from, to);
    }

    /**
      Gives region n's attributes to the pages it owns, stretch by stretch between the higher
      regions, and to no others.
    */
    method UpdatePURegion(n: nat)
      requires Shape() && n < 8
      modifies userMap, privMap, memTimings
      ensures Given(n, PAGES)
    {
      var rgn := regs.regions[n];
      RegionInMap(rgn);
      if !regs.Enabled() || rgn % 2 == 0 {
        forall p | 0 <= p < PAGES ensures !Owns(n, p) {
          OwnerBelow(regs.regions, n, p);
        }
        return;
      }
      var start, end := First(rgn), Last(rgn);
      var i := start;
      OutsideNotOwned(n, 0, start);
      while i < end
        invariant start <= i <= end
        invariant Given(n, i)
      {
        var coveredEnd, next := ScanHigher(n, i, end);
        var i' := if coveredEnd > i then (if coveredEnd < end then coveredEnd else end) else next;
        StretchOwned(n, i, i', end, coveredEnd, next);
        if coveredEnd <= i {
          GiveStretch(n, i, next);
        }
        i := i';
      }
      OutsideNotOwned(n, end, PAGES);
    }

    lemma OutsideNotOwned(n: nat, from: nat, to: nat)
      requires regs.Valid() && n < 8
      requires to <= First(regs.regions[n]) || Last(regs.regions[n]) <= from
      ensures forall p | from <= p < to :: !Owns(n, p)
    {
      forall p | from <= p < to ensures !Owns(n, p) {
        OwnerBelow(regs.regions, n, p);
      }
    }

    // A stretch is owned as a whole, or overlaid as a whole.
    lemma StretchOwned(n: nat, from: nat, to: nat, end: nat, coveredEnd: nat, next: nat)
      requires regs.Valid() && n < 8 && regs.Enabled() && Scanned(regs.regions, n, 8, from, end, coveredEnd, next)
      requires regs.regions[n] % 2 == 1 && First(regs.regions[n]) <= from && end == Last(regs.regions[n])
      requires to == if coveredEnd > from then (if coveredEnd < end then coveredEnd else end) else next
      ensures from < to <= end && forall p | from <= p < to :: Owns(n, p) <==> coveredEnd <= from
    {
      forall p | from <= p < to ensures Owns(n, p) <==> coveredEnd <= from {
        OwnerBelow(regs.regions, n, p);
        assert coveredEnd > from ==> Overlaid(regs.regions, n, 8, p);
        assert coveredEnd <= from ==> !Overlaid(regs.regions, n, 8, p);
      }
    }

    // Pages of the first n regions are right; so are, if asked for, those of no region.
    ghost predicate Settled(n: nat, unowned: bool)
      requires Shape()
      reads this, userMap, privMap, memTimings
    {
      forall p | 0 <= p < PAGES && Owner(regs.regions, 8, p) < n && (unowned || Owner(regs.regions, 8, p) != -1) :: PageOk(p)
    }

    ghost predicate PageOk(p: nat)
      requires Shape() && p < PAGES
      reads this, userMap, privMap, memTimings
    {
      && userMap[p] == PageAttr(regs, p, true) && privMap[p] == PageAttr(regs, p, false)
      && memTimings[p] == TimingOf(p)
    }

    // The pages that no region owns have no access.
    ghost predicate UnownedBlank()
      requires Shape()
      reads this, userMap, privMap
    {
      forall p | 0 <= p < PAGES && Owner(regs.regions, 8, p) == -1 :: userMap[p] == privMap[p] == NO_ACCESS
    }

    ghost predicate UnownedTimed()
      requires Shape()
      reads this, privMap, memTimings
    {
      forall p | 0 <= p < PAGES && Owner(regs.regions, 8, p) == -1 :: memTimings[p] == TimingOf(p)
    }

    method UpdatePURegions(updateAll: bool)
      requires Shape() && (updateAll || !regs.Enabled() || (UnownedBlank() && UnownedTimed()))
      modifies userMap, privMap, memTimings
      ensures Valid()
    {
      if !regs.Enabled() {
        Fill(userMap, 0, PAGES, UNPROTECTED);
        Fill(privMap, 0, PAGES, UNPROTECTED);
        UpdateRegionTimings(0, PAGES);
        return;
      }
      if updateAll {
        Fill(userMap, 0, PAGES, NO_ACCESS);
        Fill(privMap, 0, PAGES, NO_ACCESS);
      }
      for n := 0 to 8
        invariant UnownedBlank() && (updateAll || UnownedTimed())
        invariant Settled(n, !updateAll)
      {
        UpdatePURegion(n);
      }
      if updateAll {
        forall p | 0 <= p < PAGES ensures SameCache(userMap[p], privMap[p]) && privMap[p] == PageAttr(regs, p, false) {
          assert Owner(regs.regions, 8, p) != -1 ==> PageOk(p);
        }
        UpdateRegionTimings(0, PAGES);
      }
    }

    // The maps as they were for other registers that have the same regions and control bits.
    ghost predicate AsBefore(was: Registers)
      requires Shape()
      reads this, userMap, privMap, memTimings
    {
      && was.Valid() && was.regions == regs.regions && was.control == regs.control
      && forall p | 0 <= p < PAGES :: userMap[p] == PageAttr(was, p, true) && privMap[p] == PageAttr(was, p, false)
           && memTimings[p] == TimingOf(p)
    }

    // Updates the regions whose attributes have changed.
    method UpdateChanged(changed: seq<bool>, ghost was: Registers)
      requires Shape() && |changed| == 8 && AsBefore(was)
      requires forall n | 0 <= n < 8 && !changed[n] ::
        RegionAttr(was, n, true) == RegionAttr(regs, n, true) && RegionAttr(was, n, false) == RegionAttr(regs, n, false)
      modifies userMap, privMap, memTimings
      ensures Valid()
    {
      for n := 0 to 8
        invariant Settled(n, true)
        invariant forall p | 0 <= p < PAGES && Owner(regs.regions, 8, p) >= n ::
          userMap[p] == PageAttr(was, p, true) && privMap[p] == PageAttr(was, p, false) && memTimings[p] == TimingOf(p)
      {
        if changed[n] {
          UpdatePURegion(n);
        }
      }
      assert forall p | 0 <= p < PAGES :: PageOk(p);
    }

    // A changed control register: the maps depend on three of its bits.
    method WriteControl(val: bv32)
      requires Valid()
      modifies this`regs, userMap, privMap, memTimings
      ensures Valid() && regs == old(regs.(control := WrittenControl(regs.control, val)))
    {
      hide WrittenControl, SameControl, RegionAttr, PageTiming;
      ghost var was := regs;
      var oldControl := regs.control;
      ControlBits(regs.control, val);
      regs := regs.(control := WrittenControl(regs.control, val));
      if SameControl(oldControl, val) {
        SameByControl(was.control, val, regs.control);
        SameControlSamePages(was, regs);
      } else {
        var updateAll := !SameEnable(oldControl, val);
        assert !updateAll && regs.Enabled() ==> was.Enabled();
        UpdatePURegions(updateAll);
      }
    }

    lemma SameByControl(a: bv32, b: bv32, c: bv32)
      requires SameControl(a, b) && SameControl(c, b)
      ensures SameControl(a, c)
    {
    }

    method WriteRegion(n: nat, val: U32)
      requires Valid() && n < 8
      modifies this`regs, userMap, privMap, memTimings
      ensures Valid() && regs == old(regs.(regions := regs.regions[n := val]))
    {
      var oldregion := regs.regions[n];
      regs := regs.(regions := regs.regions[n := val]);
      if val != oldregion {
        UpdatePURegions(true);
      } else {
        assert regs.regions == old(regs.regions);
      }
    }

    /**
      Every CP15 write leaves the maps and timings equal to those built from scratch for the
      registers it leaves.
    */
    method CP15Write(id: nat, v: U32)
      requires Valid()
      modifies this`regs, userMap, privMap, memTimings
      ensures Valid() && regs == Written(old(regs), id, v)
    {
      hide Valid, Bit, Spread, WrittenControl;
      match id
      case 0x100 =>
        WriteControl(v as bv32);
      case 0x200 =>
        WriteDataCacheable(v);
      case 0x201 =>
        WriteCodeCacheable(v);
      case 0x300 =>
        WriteDataCacheWrite(v);
      case 0x500 =>
        SpreadFits(v);
        WriteDataRW(Spread(v, 8));
      case 0x501 =>
        SpreadFits(v);
        WriteCodeRW(Spread(v, 8));
      case 0x502 =>
        WriteDataRW(v);
      case 0x503 =>
        WriteCodeRW(v);
      case _ =>
        if IsRegionWrite(id) {
          WriteRegion(id / 16 % 16, v);
        }
    }

    method WriteDataCacheable(v: U32)
      requires Valid()
      modifies this`regs, userMap, privMap, memTimings
      ensures Valid() && regs == old(regs).(dataCacheable := v)
    {
      ghost var was := regs;
      var diff := DifferentBits(regs.dataCacheable, v);
      regs := regs.(dataCacheable := v);
      UpdateChanged(diff, was);
    }

    method WriteCodeCacheable(v: U32)
      requires Valid()
      modifies this`regs, userMap, privMap, memTimings
      ensures Valid() && regs == old(regs).(codeCacheable := v)
    {
      ghost var was := regs;
      var diff := DifferentBits(regs.codeCacheable, v);
      regs := regs.(codeCacheable := v);
      UpdateChanged(diff, was);
    }

    method WriteDataCacheWrite(v: U32)
      requires Valid()
      modifies this`regs, userMap, privMap, memTimings
      ensures Valid() && regs == old(regs).(dataCacheWrite := v)
    {
      ghost var was := regs;
      var diff := DifferentBits(regs.dataCacheWrite, v);
      regs := regs.(dataCacheWrite := v);
      UpdateChanged(diff, was);
    }

    method WriteDataRW(v: U32)
      requires Valid()
      modifies this`regs, userMap, privMap, memTimings
      ensures Valid() && regs == old(regs).(dataRW := v)
    {
      ghost var was := regs;
      var diff := DifferentNibbles(regs.dataRW, v);
      regs := regs.(dataRW := v);
      UpdateChanged(diff, was);
    }

    method WriteCodeRW(v: U32)
      requires Valid()
      modifies this`regs, userMap, privMap, memTimings
      ensures Valid() && regs == old(regs).(codeRW := v)
    {
      ghost var was := regs;
      var diff := DifferentNibbles(regs.codeRW, v);
      regs := regs.(codeRW := v);
      UpdateChanged(diff, was);
    }

    // -------- the other steps --------

    /** A mode switch selects a map and changes nothing else: timings are the same in all modes. */
    method SelectMap(user: bool)
      requires Valid()
      modifies this`userMode
      ensures Valid() && userMode == user
    {
      userMode := user;
    }

    // NDS::SetARM9RegionTimings, with the CPU's timings; addresses are in pages.
    method SetRegionTimings(addrstart: nat, addrend: nat, mainRam: bool, wide: bool, nonseq: nat, seq_: nat)
      requires Valid() && addrstart <= addrend <= PAGES
      modifies this`busTimings, memTimings
      ensures Valid()
      ensures BusSet(old(busTimings), busTimings, addrstart / 4, addrend / 4, CpuBus(mainRam, wide, nonseq, seq_))
    {
      hide CpuBus, PageAttr, PageTiming;
      var first, last := addrstart / 4, addrend / 4;
      ghost var was := busTimings;
      for i := first to last
        invariant Shape() && BusSet(was, busTimings, first, i, CpuBus(mainRam, wide, nonseq, seq_))
        invariant memTimings[..] == old(memTimings[..])
      {
        busTimings := busTimings[i := CpuBus(mainRam, wide, nonseq, seq_)];
      }
      forall p | 0 <= p < PAGES
        ensures memTimings[p] == old(memTimings[..])[p] && SameCache(userMap[p], privMap[p]) && (first * 4 <= p < last * 4 <==> first <= p / 4 < last)
      {
        SameCaching(regs, p);
      }
      UpdateRegionTimings(first * 4, last * 4);
    }

    method SetClockShift(shift: nat)
      requires Valid()
      modifies this`clockShift, memTimings
      ensures Valid() && clockShift == shift
    {
      clockShift := shift;
      forall p | 0 <= p < PAGES ensures SameCache(userMap[p], privMap[p]) {
        SameCaching(regs, p);
      }
      UpdateRegionTimings(0, PAGES);
    }

    /** CP15Reset, from any state. */
    method CP15Reset()
      requires Shape()
      modifies this`regs, userMap, privMap, memTimings
      ensures Valid() && regs == RESET_REGISTERS
    {
      regs := RESET_REGISTERS;
      UpdatePURegions(true);
    }

    constructor (bus: seq<Bus>, shift: nat)
      requires |bus| == PAGES / 4
      ensures Valid() && fresh(userMap) && fresh(privMap) && fresh(memTimings) && regs == RESET_REGISTERS
    {
      regs := RESET_REGISTERS;
      userMap := new Attr[PAGES](_ => NO_ACCESS);
      privMap := new Attr[PAGES](_ => NO_ACCESS);
      memTimings := new Timing[PAGES](_ => Timing(0, 0, 0, 0));
      busTimings, clockShift, userMode := bus, shift, false;
      new;
      UpdatePURegions(true);
    }
  }
}
