/**
  The DSi's new shared WRAM by address (src/DSi.cpp): a window register for each CPU and bank says
  at which addresses the CPU finds the bank's slots, and how many of them repeat there. A write
  must reach every address from which its bytes are seen, and no other.
*/
module NwramWindows {
  import opened Bits
  import opened Options
  import opened Nwram
  import L = LocalAddresses

  // -------- window registers --------

  // The addresses [start, end) show the slots 0 to mask, over and over.
  datatype Window = Window(start: nat, end: nat, mask: nat)

  // The bits of a window register that can be written.
  function Kept(bankA: bool, val: U32): U32 {
    if bankA then val / 0x10_0000 % 0x200 * 0x10_0000 + val / 0x10 % 0x400 * 0x10
    else val / 0x8_0000 % 0x400 * 0x8_0000 + val / 8 % 0x800 * 8
  }

  // The first block of a window, and the first after it.
  function FirstBlock(bankA: bool, val: U32): nat { if bankA then val / 0x10 % 0x100 else val / 8 % 0x200 }

  function EndBlock(bankA: bool, val: U32): nat { if bankA then val / 0x10_0000 % 0x200 else val / 0x8_0000 % 0x400 }

  function Mask(bankA: bool, val: U32): (mask: nat)
    ensures mask in {0, 1, 3, 7} && mask < Parts(bankA)
  {
    var size := val / 0x1000 % 4;
    if bankA then (if size < 2 then 0 else if size == 2 then 1 else 3)
    else if size == 0 then 0 else if size == 1 then 1 else if size == 2 then 3 else 7
  }

  function WindowOf(bankA: bool, val: U32): (w: Window)
    ensures w.mask < Parts(bankA)
  {
    Window(0x0300_0000 + FirstBlock(bankA, val) * PartSize(bankA), 0x0300_0000 + EndBlock(bankA, val) * PartSize(bankA),
      Mask(bankA, val))
  }

  predicate InWindow(w: Window, addr: U32) { w.start <= addr < w.end }

  // The block of the area that an address is in, the slot it shows in a window, and the place in it.
  function BlockAt(bankA: bool, addr: U32): nat { addr % 0x100_0000 / PartSize(bankA) }

  function SlotAt(bankA: bool, mask: nat, addr: U32): (slot: nat)
    requires mask < Parts(bankA)
    ensures slot < Parts(bankA)
  {
    addr / PartSize(bankA) % (mask + 1)
  }

  function OffsetAt(bankA: bool, addr: U32): (offset: nat)
    ensures offset < PartSize(bankA)
  {
    addr % PartSize(bankA)
  }

  lemma BlockOf(bankA: bool, addr: U32)
    requires addr / 0x100_0000 == 3
    ensures addr / PartSize(bankA) == 0x300_0000 / PartSize(bankA) + BlockAt(bankA, addr)
  {
  }

  // A block starts at or after a boundary exactly if its addresses do.
  lemma BlockOrder(size: nat, q: nat, r: nat, base: nat, n: nat)
    requires r < size
    ensures base * size + n * size <= q * size + r <==> base + n <= q
  {
    assert base * size + n * size == (base + n) * size;
    MulKeepsOrder(base + n, q, size);
    MulKeepsOrder(q + 1, base + n, size);
  }

  /** A window consists of the whole blocks that its register names, and starts over at slot 0 in block 0 of the area. */
  lemma WindowIs(bankA: bool, val: U32, addr: U32)
    requires addr / 0x100_0000 == 3
    ensures InWindow(WindowOf(bankA, val), addr) <==> FirstBlock(bankA, val) <= BlockAt(bankA, addr) < EndBlock(bankA, val)
    ensures SlotAt(bankA, Mask(bankA, val), addr) == BlockAt(bankA, addr) % (Mask(bankA, val) + 1)
  {
    hide FirstBlock, EndBlock, Mask;
    BlockOf(bankA, addr);
    var size, base := PartSize(bankA), if bankA then 0x300 else 0x600;
    BlockOrder(size, addr / size, addr % size, base, FirstBlock(bankA, val));
    BlockOrder(size, addr / size, addr % size, base, EndBlock(bankA, val));
    WholeTurns(base, BlockAt(bankA, addr), Mask(bankA, val));
  }

  lemma WholeTurns(base: nat, block: nat, mask: nat)
    requires base % 8 == 0 && mask in {0, 1, 3, 7}
    ensures (base + block) % (mask + 1) == block % (mask + 1)
  {
    if mask == 0 {
      Quotient(base + block, 1, base + block, 0);
      Quotient(block, 1, block, 0);
    } else if mask == 1 {
      Quotient(base + block, 2, base / 8 * 4 + block / 2, block % 2);
    } else if mask == 3 {
      Quotient(base + block, 4, base / 8 * 2 + block / 4, block % 4);
    } else {
      Quotient(base + block, 8, base / 8 + block / 8, block % 8);
    }
  }

  lemma SplitRemainder(a: nat, size: nat, n: nat)
    requires size > 0 && n > 0
    ensures size * n > 0 && a % (size * n) == a / size % n * size + a % size
  {
    MulKeepsOrder(1, n, size);
    TakeRemainder(a, a / size, size, n, a / size / n, a / size % n, a % size);
  }

  lemma TakeRemainder(a: nat, blocks: nat, size: nat, n: nat, q: nat, s: nat, r: nat)
    requires size * n > 0 && r < size && s < n && a == blocks * size + r && blocks == q * n + s
    ensures a % (size * n) == s * size + r
  {
    MulKeepsOrder(s + 1, n, size);
    Regroup(q, n, size, s, r);
    Quotient(a, size * n, q, s * size + r);
  }

  lemma Regroup(q: nat, n: nat, size: nat, s: nat, r: nat)
    ensures (q * n + s) * size + r == q * (size * n) + (s * size + r)
  {
    assert (q * n + s) * size == q * n * size + s * size;
    assert q * n * size == q * (size * n);
  }

  /** The same byte is shown exactly where the addresses differ by whole turns. */
  lemma TurnsIff(bankA: bool, mask: nat, a: U32, b: U32)
    requires mask < Parts(bankA)
    ensures SlotAt(bankA, mask, a) == SlotAt(bankA, mask, b) && OffsetAt(bankA, a) == OffsetAt(bankA, b)
      <==> a % (PartSize(bankA) * (mask + 1)) == b % (PartSize(bankA) * (mask + 1))
  {
    var size, n := PartSize(bankA), mask + 1;
    SplitRemainder(a, size, n);
    SplitRemainder(b, size, n);
    var s, t := a / size % n, b / size % n;
    MulKeepsOrder(s + 1, t, size);
    MulKeepsOrder(t + 1, s, size);
  }

  lemma RestIsAligned(fours: nat, width: nat, r: nat, room: nat)
    requires width in {1, 2, 4} && (fours * 4 + r) % width == 0 && r < room * 4
    ensures r + width <= room * 4
  {
    if width == 2 {
      TwosAlign(fours, r, room);
    } else if width == 4 {
      FoursAlign(fours, r, room);
    }
  }

  lemma TwosAlign(fours: nat, r: nat, room: nat)
    requires (fours * 4 + r) % 2 == 0 && r < room * 4
    ensures r + 2 <= room * 4
  {
    Quotient(fours * 4 + r, 2, fours * 2 + r / 2, r % 2);
  }

  lemma FoursAlign(fours: nat, r: nat, room: nat)
    requires (fours * 4 + r) % 4 == 0 && r < room * 4
    ensures r + 4 <= room * 4
  {
    Quotient(fours * 4 + r, 4, fours + r / 4, r % 4);
  }

  // An access does not cross a boundary, so all its bytes are in one window and one slot.
  lemma AccessInPiece(room: nat, addr: U32, width: nat, i: nat)
    requires room > 0 && width in {1, 2, 4} && addr % width == 0 && i < width
    ensures var size := room * 4;
      addr % size + width <= size && (addr + i) / size == addr / size && (addr + i) % size == addr % size + i
  {
    AccessFrom(addr, addr / (room * 4), room, addr % (room * 4), width, i);
  }

  lemma AccessFrom(addr: U32, q: nat, room: nat, r: nat, width: nat, i: nat)
    requires room > 0 && width in {1, 2, 4} && addr % width == 0 && i < width
    requires addr == q * (room * 4) + r && r < room * 4
    ensures r + width <= room * 4 && (addr + i) / (room * 4) == q && (addr + i) % (room * 4) == r + i
  {
    assert q * (room * 4) == q * room * 4;
    RestIsAligned(q * room, width, r, room);
    Quotient(addr + i, room * 4, q, r + i);
  }

  lemma AccessInBlock(bankA: bool, addr: U32, width: nat, i: nat)
    requires width in {1, 2, 4} && addr % width == 0 && i < width
    ensures addr + i < 0x1_0000_0000 && (addr + i) / 0x100_0000 == addr / 0x100_0000
    ensures (addr + i) / PartSize(bankA) == addr / PartSize(bankA) && OffsetAt(bankA, addr + i) == OffsetAt(bankA, addr) + i
    ensures OffsetAt(bankA, addr) + width <= PartSize(bankA)
  {
    AccessInPiece(0x40_0000, addr, width, i);
    AccessInPiece(PartSize(bankA) / 4, addr, width, i);
  }

  // -------- the three banks --------

  function Update<T>(table: seq<seq<T>>, cpu: nat, k: nat, entry: T): seq<seq<T>>
    requires cpu < |table| && k < |table[cpu]|
  {
    table[cpu := table[cpu][k := entry]]
  }

  class NwramArea {
    const a: NwramBank
    const b: NwramBank
    const c: NwramBank

    // For each CPU, whether the area is enabled, and the window registers and windows of the banks.
    var on: seq<bool>
    var registers: seq<seq<U32>>
    var windows: seq<seq<Window>>

    // How often a change of a window was announced to the JIT.
    var remaps: nat

    function Bank(k: nat): NwramBank { if k == 0 then a else if k == 1 then b else c }

    ghost predicate Shape()
      reads this
    {
      && a.bankA && !b.bankA && !c.bankA && b != c && |on| == |registers| == |windows| == 2
      && a.memory != b.memory && a.memory != c.memory && b.memory != c.memory
      && (forall cpu | 0 <= cpu < 2 :: |registers[cpu]| == |windows[cpu]| == 3)
      && forall cpu, k | 0 <= cpu < 2 && 0 <= k < 3 ::
        || windows[cpu][k] == WindowOf(k == 0, registers[cpu][k])
        || (registers[cpu][k] == 0 && windows[cpu][k] == Window(0, 0, 0))
    }

    ghost predicate Valid()
      reads this, a, b, c, a.maps, b.maps, c.maps, a.memory, b.memory, c.memory
    {
      Shape() && a.Valid() && b.Valid() && c.Valid()
    }

    constructor ()
      ensures Valid() && on == [true, true] && registers == [[0, 0, 0], [0, 0, 0]]
    {
      a := new NwramBank(true);
      b := new NwramBank(false);
      c := new NwramBank(false);
      on := [true, true];
      registers := [[0, 0, 0], [0, 0, 0]];
      windows := [[Window(0, 0, 0), Window(0, 0, 0), Window(0, 0, 0)], [Window(0, 0, 0), Window(0, 0, 0), Window(0, 0, 0)]];
      remaps := 0;
    }

    /** A write to a window register changes that window, unless no bit of it changes. */
    method MapNWRAMRange(cpu: nat, k: nat, value: U32)
      requires Valid() && cpu < 2 && k < 3
      modifies this`registers, this`windows, this`remaps
      ensures Valid()
      ensures var val: U32 := Kept(k == 0, value);
        && registers == Update(old(registers), cpu, k, val)
        && (if val == old(registers)[cpu][k] then windows == old(windows) && remaps == old(remaps)
          else windows == Update(old(windows), cpu, k, WindowOf(k == 0, val)) && remaps == old(remaps) + 1)
    {
      var val: U32 := Kept(k == 0, value);
      if registers[cpu][k] == val {
        assert registers[cpu][k := val] == registers[cpu];
        return;
      }
      remaps := remaps + 1;
      registers := Update(registers, cpu, k, val);
      windows := Update(windows, cpu, k, WindowOf(k == 0, val));
    }

    // -------- what an address shows --------

    // The bank of the first window that holds an address; the others are hidden there.
    function Selected(cpu: nat, addr: U32): (bank: Option<nat>)
      requires cpu < |on| && cpu < |windows| && |windows[cpu]| == 3
      reads this
      ensures bank.Some? ==> bank.value < 3 && InWindow(windows[cpu][bank.value], addr) && addr / 0x100_0000 == 3
    {
      if addr / 0x100_0000 != 3 || !on[cpu] then None
      else if InWindow(windows[cpu][0], addr) then Some(0)
      else if InWindow(windows[cpu][1], addr) then Some(1)
      else if InWindow(windows[cpu][2], addr) then Some(2)
      else None
    }

    ghost function Slot(cpu: nat, k: nat, addr: U32): (slot: nat)
      requires Shape() && cpu < 2 && k < 3
      reads this
      ensures slot < Parts(k == 0)
    {
      SlotAt(k == 0, windows[cpu][k].mask, addr)
    }

    // The part of the bank that is read at an address.
    ghost function PartAt(cpu: nat, k: nat, addr: U32): (part: int)
      requires Valid() && cpu < 2 && k < 3
      reads this, a, b, c, a.maps, b.maps, c.maps, a.memory, b.memory, c.memory
      ensures part == NO_PART || 0 <= part < Parts(k == 0)
    {
      Lowest(k == 0, Bank(k).mbk, cpu, Slot(cpu, k, addr))
    }

    // What a bank shows at an address, if it is the one selected there.
    ghost function BankByte(cpu: nat, k: nat, addr: U32): Byte
      requires Valid() && cpu < 2 && k < 3
      reads this, a, b, c, a.maps, b.maps, c.maps, a.memory, b.memory, c.memory
    {
      var part := PartAt(cpu, k, addr);
      if part == NO_PART then 0 else Bank(k).memory[part, OffsetAt(k == 0, addr)]
    }

    /** The byte a CPU finds at an address, where the area shows one at all. */
    ghost function ByteAt(cpu: nat, addr: U32): Option<Byte>
      requires Valid() && cpu < 2
      reads this, a, b, c, a.maps, b.maps, c.maps, a.memory, b.memory, c.memory
    {
      var k := Selected(cpu, addr);
      if k.None? then None else Some(BankByte(cpu, k.value, addr))
    }

    /** A read gives the bytes at its addresses, or is left to the other memories. */
    method Read(cpu: nat, addr: U32, width: nat) returns (data: Option<seq<Byte>>)
      requires Valid() && cpu < 2 && width in {1, 2, 4} && addr % width == 0
      ensures data.Some? == Selected(cpu, addr).Some?
      ensures data.Some? ==> |data.value| == width && forall i | 0 <= i < width ::
        addr + i < 0x1_0000_0000 && Some(data.value[i]) == ByteAt(cpu, addr + i)
    {
      var k := Selected(cpu, addr);
      if k.None? {
        return None;
      }
      AccessInBlock(k.value == 0, addr, width, 0);
      var bytes := ReadBank(cpu, k.value, addr, width);
      data := Some(bytes);
      forall i | 0 <= i < width ensures addr + i < 0x1_0000_0000 && Some(bytes[i]) == ByteAt(cpu, addr + i) {
        SelectedInAccess(cpu, addr, width, i);
        AccessInBlock(k.value == 0, addr, width, i);
      }
    }

    method ReadBank(cpu: nat, k: nat, addr: U32, width: nat) returns (data: seq<Byte>)
      requires Valid() && cpu < 2 && k < 3 && OffsetAt(k == 0, addr) + width <= PartSize(k == 0)
      ensures |data| == width
      ensures var part := PartAt(cpu, k, addr);
        forall i | 0 <= i < width :: data[i] == if part == NO_PART then 0 else Bank(k).memory[part, OffsetAt(k == 0, addr) + i]
    {
      data := Bank(k).Read(cpu, SlotAt(k == 0, windows[cpu][k].mask, addr), OffsetAt(k == 0, addr), width);
    }

    lemma SelectedInAccess(cpu: nat, addr: U32, width: nat, i: nat)
      requires Valid() && cpu < 2 && width in {1, 2, 4} && addr % width == 0 && i < width
      ensures addr + i < 0x1_0000_0000 && Selected(cpu, addr + i) == Selected(cpu, addr)
    {
      AccessInBlock(true, addr, width, i);
      AccessInBlock(false, addr, width, i);
      if addr / 0x100_0000 == 3 {
        WindowInAccess(windows[cpu][0], true, registers[cpu][0], addr, addr + i);
        WindowInAccess(windows[cpu][1], false, registers[cpu][1], addr, addr + i);
        WindowInAccess(windows[cpu][2], false, registers[cpu][2], addr, addr + i);
      }
    }

    // An address shows byte i of an access at another one: it is a whole number of turns away.
    ghost predicate Mirrors(cpu: nat, addr: U32, i: nat, x: U32)
      requires Valid() && cpu < 2
      reads this, a, b, c, a.maps, b.maps, c.maps, a.memory, b.memory, c.memory
    {
      var k := Selected(cpu, addr);
      && k.Some? && Selected(cpu, x) == k && PartAt(cpu, k.value, addr) != NO_PART
      && var turn := PartSize(k.value == 0) * (windows[cpu][k.value].mask + 1);
        turn > 0 && x % turn == (addr + i) % turn
    }

    // A part is mapped to one slot of one CPU.
    lemma PartIsOf(u: nat, k: nat, x: U32, cpu: nat, addr: U32)
      requires Valid() && u < 2 && cpu < 2 && k < 3 && PartAt(u, k, x) != NO_PART
      ensures MapsTo(k == 0, Bank(k).mbk[PartAt(u, k, x)], cpu, Slot(cpu, k, addr))
        <==> u == cpu && Slot(u, k, x) == Slot(cpu, k, addr)
    {
      LowestIs(k == 0, Bank(k).mbk, 0, u, Slot(u, k, x), PartAt(u, k, x));
    }

    lemma MirrorIff(cpu: nat, addr: U32, width: nat, i: nat, k: nat, x: U32)
      requires Valid() && cpu < 2 && width in {1, 2, 4} && addr % width == 0 && i < width
      requires Selected(cpu, addr) == Some(k)
      ensures Mirrors(cpu, addr, i, x) <==>
        (Selected(cpu, x) == Some(k) && PartAt(cpu, k, x) != NO_PART
        && Slot(cpu, k, x) == Slot(cpu, k, addr) && OffsetAt(k == 0, x) == OffsetAt(k == 0, addr) + i)
    {
      hide Lowest, LowestFrom, WindowOf, InWindow, OffsetAt, MapsTo;
      AccessInBlock(k == 0, addr, width, i);
      TurnsIff(k == 0, windows[cpu][k].mask, x, addr + i);
    }

    method WriteParts(cpu: nat, k: nat, addr: U32, data: seq<Byte>)
      requires Valid() && cpu < 2 && k < 3 && OffsetAt(k == 0, addr) + |data| <= PartSize(k == 0)
      modifies Bank(k).memory, Bank(k)`barrier
      ensures Valid()
      ensures forall part, o | 0 <= part < Parts(k == 0) && 0 <= o < PartSize(k == 0) ::
        Bank(k).memory[part, o] ==
          if MapsTo(k == 0, Bank(k).mbk[part], cpu, Slot(cpu, k, addr)) && OffsetAt(k == 0, addr) <= o < OffsetAt(k == 0, addr) + |data|
          then data[o - OffsetAt(k == 0, addr)] else old(Bank(k).memory[part, o])
      ensures Bank(k).barrier == old(Bank(k).barrier)
        + Places(k == 0, Bank(k).mbk, |Bank(k).mbk|, cpu, Slot(cpu, k, addr), OffsetAt(k == 0, addr))
    {
      hide Lowest, LowestFrom, WindowOf, SlotAt, OffsetAt, MapsTo, Places, PartSize;
      Bank(k).Write(cpu, SlotAt(k == 0, windows[cpu][k].mask, addr), OffsetAt(k == 0, addr), data);
    }

    method WriteBank(cpu: nat, k: nat, addr: U32, data: seq<Byte>)
      requires Valid() && cpu < 2 && k < 3 && OffsetAt(k == 0, addr) + |data| <= PartSize(k == 0)
      modifies Bank(k).memory, Bank(k)`barrier
      ensures Valid()
      ensures forall u, x: U32 | 0 <= u < 2 :: PartAt(u, k, x) == old(PartAt(u, k, x))
      ensures forall u, x: U32 | 0 <= u < 2 ::
        BankByte(u, k, x) == if PartAt(u, k, x) != NO_PART && u == cpu && Slot(u, k, x) == Slot(cpu, k, addr)
            && OffsetAt(k == 0, addr) <= OffsetAt(k == 0, x) < OffsetAt(k == 0, addr) + |data|
          then data[OffsetAt(k == 0, x) - OffsetAt(k == 0, addr)] else old(BankByte(u, k, x))
      ensures forall u, j, x: U32 | 0 <= u < 2 && 0 <= j < 3 && j != k :: BankByte(u, j, x) == old(BankByte(u, j, x))
      ensures Bank(k).barrier == old(Bank(k).barrier)
        + Places(k == 0, Bank(k).mbk, |Bank(k).mbk|, cpu, Slot(cpu, k, addr), OffsetAt(k == 0, addr))
    {
      WriteParts(cpu, k, addr, data);
      forall u, x: U32 | 0 <= u < 2 && PartAt(u, k, x) != NO_PART
        ensures MapsTo(k == 0, Bank(k).mbk[PartAt(u, k, x)], cpu, Slot(cpu, k, addr))
          <==> u == cpu && Slot(u, k, x) == Slot(cpu, k, addr)
      {
        PartIsOf(u, k, x, cpu, addr);
      }
    }

    /**
      A write is left to the other memories exactly where a read is. Otherwise it is seen by the
      same CPU at its own addresses and at all their mirrors, and nothing else changes for either
      CPU, although it may have gone to several parts.
    */
    method Write(cpu: nat, addr: U32, data: seq<Byte>) returns (done: bool)
      requires Valid() && cpu < 2 && |data| in {1, 2, 4} && addr % |data| == 0
      modifies a.memory, b.memory, c.memory, a`barrier, b`barrier, c`barrier
      ensures Valid() && done == Selected(cpu, addr).Some?
      ensures forall x: U32, i | 0 <= i < |data| && Mirrors(cpu, addr, i, x) :: ByteAt(cpu, x) == Some(data[i])
      ensures forall u, x: U32 | 0 <= u < 2 && (u == cpu ==> forall i | 0 <= i < |data| :: !Mirrors(cpu, addr, i, x)) ::
        ByteAt(u, x) == old(ByteAt(u, x))
      ensures forall k | 0 <= k < 3 :: Bank(k).barrier == old(Bank(k).barrier) + Passed(cpu, k, addr)
    {
      hide PartAt, BankByte, Slot, OffsetAt, PartSize, Places, InWindow;
      var selected := Selected(cpu, addr);
      if selected.None? {
        return false;
      }
      done := true;
      var k := selected.value;
      AccessInBlock(k == 0, addr, |data|, 0);
      WriteBank(cpu, k, addr, data);
      forall x: U32, i | 0 <= i < |data| ensures Mirrors(cpu, addr, i, x) <==>
        (Selected(cpu, x) == Some(k) && PartAt(cpu, k, x) != NO_PART
        && Slot(cpu, k, x) == Slot(cpu, k, addr) && OffsetAt(k == 0, x) == OffsetAt(k == 0, addr) + i)
      {
        MirrorIff(cpu, addr, |data|, i, k, x);
      }
      forall u, x: U32 | 0 <= u < 2 && (u == cpu ==> forall i | 0 <= i < |data| :: !Mirrors(cpu, addr, i, x))
        ensures ByteAt(u, x) == old(ByteAt(u, x))
      {
        ghost var i := OffsetAt(k == 0, x) - OffsetAt(k == 0, addr);
        if u == cpu && 0 <= i < |data| {
          assert !Mirrors(cpu, addr, i, x);
        }
      }
    }

    // The places in a bank that a write to an address passes to the JIT's barrier.
    ghost function Passed(cpu: nat, k: nat, addr: U32): seq<nat>
      requires Valid() && cpu < 2 && k < 3
      reads this, a, b, c, a.maps, b.maps, c.maps, a.memory, b.memory, c.memory
    {
      if Selected(cpu, addr) != Some(k) then []
      else Places(k == 0, Bank(k).mbk, |Bank(k).mbk|, cpu, Slot(cpu, k, addr), OffsetAt(k == 0, addr))
    }

    // -------- the JIT's view --------

    /** A mapping for the JIT that is made from these windows and maps. */
    ghost predicate Shown(m: L.Mapping)
      requires Valid()
      reads this, a, b, c, a.maps, b.maps, c.maps, a.memory, b.memory, c.memory
    {
      && m.dsi && m.mainRamSize > 0 && (m.swram9.Some? ==> m.swram9.value.size > 0) && (m.swram7.Some? ==> m.swram7.value.size > 0)
      && (forall cpu | 0 <= cpu < 2 :: m.nwramOn(cpu) == on[cpu])
      && forall cpu, k | 0 <= cpu < 2 && 0 <= k < 3 ::
        && m.nwramStart(cpu, k) == windows[cpu][k].start && m.nwramEnd(cpu, k) == windows[cpu][k].end
        && forall block: nat ::
          m.nwramAt(cpu, k, block) == OffsetOf(k == 0, Lowest(k == 0, Bank(k).mbk, cpu, block % (windows[cpu][k].mask + 1)))
    }

    // The local address of code: that of the byte read there, and one that writes there pass on.
    ghost predicate IsLocal(cpu: nat, k: nat, addr: U32, local: Option<nat>)
      requires Valid() && cpu < 2 && k < 3
      reads this, a, b, c, a.maps, b.maps, c.maps, a.memory, b.memory, c.memory
    {
      var part := PartAt(cpu, k, addr);
      if local.None? then part == NO_PART
      else local.value == part * PartSize(k == 0) + OffsetAt(k == 0, addr) && local.value in Passed(cpu, k, addr)
    }

    /**
      Code in the area has the local address of the byte that is read there, and a write to that
      address passes it to the barrier.
    */
    lemma WritePassesCode(m: L.Mapping, cpu: nat, addr: U32)
      requires Valid() && cpu < 2 && Shown(m)
      ensures var r := L.Classify(m, cpu, addr);
        r in {L.NwramA, L.NwramB, L.NwramC} ==>
          var k := if r == L.NwramA then 0 else if r == L.NwramB then 1 else 2;
          Selected(cpu, addr) == Some(k) && IsLocal(cpu, k, addr, L.LocaliseAddress(m, r, cpu, addr))
    {
      ClassifiedIsSelected(m, cpu, addr);
      var r := L.Classify(m, cpu, addr);
      hide L.Classify, L.LocaliseNwram, IsLocal, Selected;
      if r in {L.NwramA, L.NwramB, L.NwramC} {
        LocalIs(m, cpu, if r == L.NwramA then 0 else if r == L.NwramB then 1 else 2, addr);
      }
    }

    lemma ClassifiedIsSelected(m: L.Mapping, cpu: nat, addr: U32)
      requires Valid() && cpu < 2 && Shown(m)
      ensures var r := L.Classify(m, cpu, addr);
        && (r == L.NwramA ==> Selected(cpu, addr) == Some(0)) && (r == L.NwramB ==> Selected(cpu, addr) == Some(1))
        && (r == L.NwramC ==> Selected(cpu, addr) == Some(2))
    {
      hide WindowOf, OffsetOf, Lowest;
    }

    lemma LocalIs(m: L.Mapping, cpu: nat, k: nat, addr: U32)
      requires Valid() && cpu < 2 && k < 3 && Shown(m) && Selected(cpu, addr) == Some(k)
      ensures IsLocal(cpu, k, addr, L.LocaliseNwram(m, cpu, k, addr))
    {
      hide Selected, WindowOf, InWindow, MapsTo, Lowest, LowestFrom, Places;
      var part := PartAt(cpu, k, addr);
      assert L.Nwram(m, cpu, k, addr) == OffsetOf(k == 0, part);
      if part != NO_PART {
        var slot, offset := Slot(cpu, k, addr), OffsetAt(k == 0, addr);
        PartIsOf(cpu, k, addr, cpu, addr);
        PlaceOf(k == 0, Bank(k).mbk, cpu, slot, offset, part);
      }
    }
  }

  lemma PlaceOf(bankA: bool, mbk: seq<Byte>, cpu: nat, slot: nat, offset: nat, part: nat)
    requires part < |mbk| && MapsTo(bankA, mbk[part], cpu, slot)
    ensures part * PartSize(bankA) + offset in Places(bankA, mbk, |mbk|, cpu, slot, offset)
  {
    hide MapsTo, PartSize;
    PlacesAre(bankA, mbk, |mbk|, cpu, slot, offset, part * PartSize(bankA) + offset);
  }

  function OffsetOf(bankA: bool, part: int): Option<nat> {
    if part < 0 then None else Some(part * PartSize(bankA))
  }

  lemma WindowInAccess(w: Window, bankA: bool, reg: U32, x: U32, y: U32)
    requires x / 0x100_0000 == y / 0x100_0000 == 3 && x / PartSize(bankA) == y / PartSize(bankA)
    requires w == WindowOf(bankA, reg) || w == Window(0, 0, 0)
    ensures InWindow(w, x) == InWindow(w, y)
  {
    WindowIs(bankA, reg, x);
    WindowIs(bankA, reg, y);
    BlockOf(bankA, x);
    BlockOf(bankA, y);
  }
}
