/**
  The DSi's new shared WRAM (src/DSi.cpp): three banks of 256 KiB, each cut into parts that
  are mapped to a CPU's slots by one byte a part. Several parts can be mapped to one slot: reads
  see the lowest of them, writes go to all.
*/
module Nwram {
  import opened Bits

  // -------- mapping bytes --------

  // Bit 7 maps a part, bits 2 and up give the slot, the lowest bits the CPU; some bits cannot
  // be set. Bank A has four parts of 64 KiB for two CPUs, banks B and C have eight of 32 KiB
  // and can map them to the DSP as well.
  function Parts(bankA: bool): nat { if bankA then 4 else 8 }

  function PartSize(bankA: bool): nat { if bankA then 0x1_0000 else 0x8000 }

  function Cpus(bankA: bool): nat { if bankA then 2 else 3 }

  function Settable(bankA: bool, val: Byte): Byte {
    if bankA then val / 0x80 * 0x80 + val / 4 % 4 * 4 + val % 2 else val / 0x80 * 0x80 + val % 0x20
  }

  predicate IsSettable(bankA: bool, val: Byte) { Settable(bankA, val) == val }

  predicate Enabled(val: Byte) { val >= 0x80 }

  function SlotOf(bankA: bool, val: Byte): (slot: nat)
    ensures slot < Parts(bankA)
  {
    val / 4 % Parts(bankA)
  }

  function CpuOf(bankA: bool, val: Byte): (cpu: nat)
    ensures cpu < Cpus(bankA)
  {
    if bankA then val % 2 else if val / 2 % 2 == 1 then 2 else val % 2
  }

  predicate MapsTo(bankA: bool, val: Byte, cpu: nat, slot: nat) {
    Enabled(val) && CpuOf(bankA, val) == cpu && SlotOf(bankA, val) == slot
  }

  lemma SettableIsSettable(bankA: bool, val: Byte)
    ensures IsSettable(bankA, Settable(bankA, val))
  {
    var s, e := Settable(bankA, val), val / 0x80;
    if bankA {
      var q, r := val / 4 % 4, val % 2;
      assert s == e * 0x80 + q * 4 + r;
      Quotient(s, 0x80, e, q * 4 + r);
      Quotient(s, 4, e * 0x20 + q, r);
      Quotient(e * 0x20 + q, 4, e * 8, q);
      Quotient(s, 2, e * 0x40 + q * 2, r);
    } else {
      var m := val % 0x20;
      Quotient(s, 0x80, e, m);
      Quotient(s, 0x20, e * 4, m);
    }
  }

  // The value a broadcast write compares the mapping bytes with.
  function Setting(cpu: nat, slot: nat): nat { 0x80 + slot * 4 + cpu }

  /** For the two ARMs, comparing with the setting finds exactly the parts mapped to the slot. */
  lemma SettingFindsParts(bankA: bool, val: Byte, cpu: nat, slot: nat)
    requires IsSettable(bankA, val) && cpu < 2 && slot < Parts(bankA)
    ensures val == Setting(cpu, slot) <==> MapsTo(bankA, val, cpu, slot)
  {
    var e := val / 0x80;
    if bankA {
      var q, r := val / 4 % 4, val % 2;
      assert val == e * 0x80 + q * 4 + r;
    } else {
      var m := val % 0x20;
      var q, r := m / 4, m % 4;
      assert val == e * 0x80 + q * 4 + r && q < 8 && r < 4;
      Quotient(val, 4, e * 0x20 + q, r);
      Quotient(e * 0x20 + q, 8, e * 4, q);
      Quotient(val, 2, e * 0x40 + q * 2 + r / 2, r % 2);
      Quotient(e * 0x40 + q * 2 + r / 2, 2, e * 0x20 + q, r / 2);
    }
  }

  // -------- priority --------

  const NO_PART := -1

  // The lowest part from k up that is mapped to a slot.
  function LowestFrom(bankA: bool, mbk: seq<Byte>, k: nat, cpu: nat, slot: nat): (part: int)
    requires k <= |mbk|
    ensures part == NO_PART || k <= part < |mbk|
    decreases |mbk| - k
  {
    if k == |mbk| then NO_PART
    else if MapsTo(bankA, mbk[k], cpu, slot) then k
    else LowestFrom(bankA, mbk, k + 1, cpu, slot)
  }

  /** What a slot's map entry must be, from the mapping bytes alone. */
  function Lowest(bankA: bool, mbk: seq<Byte>, cpu: nat, slot: nat): int {
    LowestFrom(bankA, mbk, 0, cpu, slot)
  }

  lemma {:induction false} LowestIs(bankA: bool, mbk: seq<Byte>, k: nat, cpu: nat, slot: nat, part: int)
    requires k <= |mbk|
    ensures LowestFrom(bankA, mbk, k, cpu, slot) == part <==>
      if part == NO_PART then forall p | k <= p < |mbk| :: !MapsTo(bankA, mbk[p], cpu, slot)
      else k <= part < |mbk| && MapsTo(bankA, mbk[part], cpu, slot) && forall p | k <= p < part :: !MapsTo(bankA, mbk[p], cpu, slot)
    decreases |mbk| - k
  {
    hide MapsTo;
    if k < |mbk| {
      LowestIs(bankA, mbk, k + 1, cpu, slot, part);
    }
  }

  function Zeroes(n: nat): (z: seq<Byte>)
    ensures |z| == n
  {
    seq(n, _ => 0)
  }

  // The offsets in the bank of the first n parts that are mapped to a slot.
  function Places(bankA: bool, mbk: seq<Byte>, n: nat, cpu: nat, slot: nat, offset: nat): seq<nat>
    requires n <= |mbk|
  {
    if n == 0 then []
    else
      var here := if MapsTo(bankA, mbk[n - 1], cpu, slot) then [(n - 1) * PartSize(bankA) + offset] else [];
      Places(bankA, mbk, n - 1, cpu, slot, offset) + here
  }

  /** They are the same offset of each mapped part, so a write's barrier calls cover what it changes. */
  lemma {:induction false} PlacesAre(bankA: bool, mbk: seq<Byte>, n: nat, cpu: nat, slot: nat, offset: nat, place: nat)
    requires n <= |mbk|
    ensures place in Places(bankA, mbk, n, cpu, slot, offset) <==>
      exists part | 0 <= part < n :: MapsTo(bankA, mbk[part], cpu, slot) && place == part * PartSize(bankA) + offset
  {
    hide MapsTo, PartSize;
    if n > 0 {
      PlacesAre(bankA, mbk, n - 1, cpu, slot, offset, place);
    }
  }

  // -------- a bank --------

  class NwramBank {
    const bankA: bool
    var mbk: seq<Byte>
    var locked: seq<bool>
    const maps: array2<int>

    // The bank's memory, part by part.
    const memory: array2<Byte>

    // The mapping has been announced to the JIT this often, and these offsets were passed to
    // its write barrier.
    var remaps: nat
    var barrier: seq<nat>

    ghost predicate Valid()
      reads this, maps, memory
    {
      && |mbk| == |locked| == Parts(bankA) && (forall p | 0 <= p < |mbk| :: IsSettable(bankA, mbk[p]))
      && maps.Length0 == Cpus(bankA) && maps.Length1 == Parts(bankA)
      && memory.Length0 == Parts(bankA) && memory.Length1 == PartSize(bankA)
      && forall cpu, slot | 0 <= cpu < maps.Length0 && 0 <= slot < maps.Length1 :: maps[cpu, slot] == Lowest(bankA, mbk, cpu, slot)
    }

    constructor (bankA: bool)
      ensures Valid() && fresh(maps) && fresh(memory) && this.bankA == bankA
      ensures mbk == seq(Parts(bankA), _ => 0) && locked == seq(Parts(bankA), _ => false)
    {
      this.bankA := bankA;
      mbk := seq(Parts(bankA), _ => 0);
      locked := seq(Parts(bankA), _ => false);
      maps := new int[Cpus(bankA), Parts(bankA)]((_, _) => NO_PART);
      memory := new Byte[Parts(bankA), PartSize(bankA)]((_, _) => 0);
      remaps, barrier := 0, [];
      new;
      forall cpu: nat, slot: nat ensures Lowest(bankA, mbk, cpu, slot) == NO_PART {
        LowestIs(bankA, mbk, 0, cpu, slot, NO_PART);
      }
    }

    /**
      A write to a part's mapping byte. The maps are rebuilt from all bytes, highest part first,
      so they do not depend on the order of the writes.
    */
    method MapNWRAM(num: nat, value: Byte)
      requires Valid() && num < Parts(bankA)
      modifies this`mbk, this`remaps, maps
      ensures Valid()
      ensures mbk == if locked[num] then old(mbk) else old(mbk)[num := Settable(bankA, value)]
      ensures remaps == old(remaps) + if mbk == old(mbk) then 0 else 1
    {
      SettableIsSettable(bankA, value);
      var val := Settable(bankA, value);
      if locked[num] {
        return;
      }
      var oldval := mbk[num];
      if oldval == val {
        assert mbk == old(mbk)[num := val];
        return;
      }
      remaps := remaps + 1;
      mbk := mbk[num := val];
      assert mbk[num] != old(mbk)[num];
      ClearMaps();
      var part := |mbk|;
      while part > 0
        invariant 0 <= part <= |mbk| && mbk == old(mbk)[num := val] && remaps == old(remaps) + 1
        invariant forall cpu, slot | 0 <= cpu < maps.Length0 && 0 <= slot < maps.Length1 ::
          maps[cpu, slot] == LowestFrom(bankA, mbk, part, cpu, slot)
      {
        part := part - 1;
        if Enabled(mbk[part]) {
          maps[CpuOf(bankA, mbk[part]), SlotOf(bankA, mbk[part])] := part;
        }
      }
    }

    method ClearMaps()
      modifies maps
      ensures forall cpu, slot | 0 <= cpu < maps.Length0 && 0 <= slot < maps.Length1 :: maps[cpu, slot] == NO_PART
    {
      for cpu := 0 to maps.Length0
        invariant forall c, s | 0 <= c < cpu && 0 <= s < maps.Length1 :: maps[c, s] == NO_PART
      {
        for slot := 0 to maps.Length1
          invariant forall c, s | 0 <= c < cpu && 0 <= s < maps.Length1 :: maps[c, s] == NO_PART
          invariant forall s | 0 <= s < slot :: maps[cpu, s] == NO_PART
        {
          maps[cpu, slot] := NO_PART;
        }
      }
    }

    // -------- accesses --------

    // What reading a slot at an offset gives: its lowest part, or zeroes.
    ghost function Seen(cpu: nat, slot: nat, offset: nat, width: nat): seq<Byte>
      requires Valid() && cpu < Cpus(bankA) && slot < Parts(bankA) && offset + width <= PartSize(bankA)
      reads this, maps, memory
    {
      var part := Lowest(bankA, mbk, cpu, slot);
      if part == NO_PART then Zeroes(width) else Bytes(part, offset, width)
    }

    ghost function Bytes(part: nat, offset: nat, width: nat): (data: seq<Byte>)
      requires part < memory.Length0 && offset + width <= memory.Length1
      reads memory
      ensures |data| == width && forall i | 0 <= i < width :: data[i] == memory[part, offset + i]
    {
      seq(width, i requires 0 <= i < width && part < memory.Length0 && offset + width <= memory.Length1 reads memory =>
        memory[part, offset + i])
    }

    method Read(cpu: nat, slot: nat, offset: nat, width: nat) returns (data: seq<Byte>)
      requires Valid() && cpu < Cpus(bankA) && slot < Parts(bankA) && offset + width <= PartSize(bankA)
      ensures data == Seen(cpu, slot, offset, width)
    {
      var part := maps[cpu, slot];
      if part == NO_PART {
        return Zeroes(width);
      }
      data := [];
      for i := 0 to width
        invariant |data| == i && forall j | 0 <= j < i :: data[j] == memory[part, offset + j]
      {
        data := data + [memory[part, offset + i]];
      }
    }

    // The bytes of an access, in one part.
    method PutBytes(part: nat, offset: nat, data: seq<Byte>)
      requires part < memory.Length0 && offset + |data| <= memory.Length1
      modifies memory
      ensures forall p, o | 0 <= p < memory.Length0 && 0 <= o < memory.Length1 ::
        memory[p, o] == if p == part && offset <= o < offset + |data| then data[o - offset] else old(memory[p, o])
    {
      for i := 0 to |data|
        invariant forall p, o | 0 <= p < memory.Length0 && 0 <= o < memory.Length1 ::
          memory[p, o] == if p == part && offset <= o < offset + i then data[o - offset] else old(memory[p, o])
      {
        memory[part, offset + i] := data[i];
      }
    }

    /**
      A write goes to every part mapped to the slot and to no other, exactly these places pass
      the barrier, and what is read back is what was written, or zeroes if nothing is mapped.
    */
    method Write(cpu: nat, slot: nat, offset: nat, data: seq<Byte>)
      requires Valid() && cpu < 2 && slot < Parts(bankA) && offset + |data| <= PartSize(bankA)
      modifies memory, this`barrier
      ensures Valid()
      ensures forall part, o | 0 <= part < memory.Length0 && 0 <= o < memory.Length1 ::
        memory[part, o] == if MapsTo(bankA, mbk[part], cpu, slot) && offset <= o < offset + |data|
          then data[o - offset] else old(memory[part, o])
      ensures barrier == old(barrier) + Places(bankA, mbk, |mbk|, cpu, slot, offset)
      ensures Seen(cpu, slot, offset, |data|) == if Lowest(bankA, mbk, cpu, slot) == NO_PART then Zeroes(|data|) else data
    {
      var destPartSetting := Setting(cpu, slot);
      for page := 0 to Parts(bankA)
        invariant Valid() && barrier == old(barrier) + Places(bankA, mbk, page, cpu, slot, offset)
        invariant forall part, o | 0 <= part < memory.Length0 && 0 <= o < memory.Length1 ::
          memory[part, o] == if part < page && MapsTo(bankA, mbk[part], cpu, slot) && offset <= o < offset + |data|
            then data[o - offset] else old(memory[part, o])
      {
        SettingFindsParts(bankA, mbk[page], cpu, slot);
        if mbk[page] == destPartSetting {
          PutBytes(page, offset, data);
          barrier := barrier + [page * PartSize(bankA) + offset];
        }
      }
      LowestIs(bankA, mbk, 0, cpu, slot, Lowest(bankA, mbk, cpu, slot));
    }
  }
}
