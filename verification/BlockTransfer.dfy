/**
  Block transfers, LDM and STM (src/ARMInterpreter_LoadStore.cpp), for non-empty register lists.

  Memory is plain words; an access whose page may not be read or written enters Abort mode.
*/
module BlockTransfer {
  import opened ArmRegisters
  import opened Bits

  // -------- register lists --------

  // The registers of a list, lowest first.
  function Ascending(list: set<nat>, from: nat): (order: seq<nat>)
    decreases 16 - from
  {
    if from >= 16 then [] else (if from in list then [from] else []) + Ascending(list, from + 1)
  }

  lemma {:induction false} AscendingIs(list: set<nat>, from: nat)
    requires forall i | i in list :: i < 16
    ensures var order := Ascending(list, from);
      && (forall i :: i in order <==> i in list && i >= from)
      && (forall j, k | 0 <= j < k < |order| :: order[j] < order[k])
    decreases 16 - from
  {
    if from < 16 {
      AscendingIs(list, from + 1);
      var rest := Ascending(list, from + 1);
      forall k | 0 <= k < |rest| ensures from < rest[k] {
        assert rest[k] in rest;
      }
      Prepend(from, rest);
    }
  }

  // A smaller number in front of ascending ones.
  lemma Prepend(x: nat, rest: seq<nat>)
    requires forall j, k | 0 <= j < k < |rest| :: rest[j] < rest[k]
    requires forall k | 0 <= k < |rest| :: x < rest[k]
    ensures forall i :: i in [x] + rest <==> i == x || i in rest
    ensures var order := [x] + rest; forall j, k | 0 <= j < k < |order| :: order[j] < order[k]
    ensures [] + rest == rest
  {
    var order := [x] + rest;
    forall j, k | 0 <= j < k < |order| ensures order[j] < order[k] {
      assert order[k] == rest[k - 1];
      assert j > 0 ==> order[j] == rest[j - 1];
    }
  }

  lemma {:induction false} AscendingCounts(list: set<nat>, from: nat)
    requires forall i | i in list :: from <= i < 16
    ensures |Ascending(list, from)| == |list|
    decreases 16 - from
  {
    if from < 16 {
      AscendingCounts(list - {from}, from + 1);
      AscendingSkips(list, from, from + 1);
    } else {
      assert list == {};
    }
  }

  lemma {:induction false} AscendingSkips(list: set<nat>, i: nat, from: nat)
    requires i < from
    ensures Ascending(list - {i}, from) == Ascending(list, from)
    decreases 16 - from
  {
    if from < 16 {
      AscendingSkips(list, i, from + 1);
    }
  }

  // countr_zero of a list.
  method Lowest(list: set<nat>) returns (i: nat)
    requires list != {} && forall x | x in list :: x < 16
    ensures i in list && forall x | x in list :: i <= x
  {
    i := 0;
    while i !in list
      invariant forall x | x in list :: i <= x < 16
      decreases 16 - i
    {
      ghost var x :| x in list;
      i := i + 1;
    }
  }

  lemma {:induction false} AscendingHead(list: set<nat>, i: nat, from: nat)
    requires i in list && from <= i < 16 && forall x | x in list :: i <= x
    ensures Ascending(list, from) == [i] + Ascending(list - {i}, from)
    decreases i - from
  {
    if from < i {
      assert from !in list;
      AscendingHead(list, i, from + 1);
    } else {
      AscendingSkips(list, i, i + 1);
    }
  }

  // The instruction: bits 24 to 21, base register, and list.
  datatype Instr = Instr(pre: bool, up: bool, s: bool, w: bool, rn: nat, list: set<nat>) {
    predicate Valid() { rn < 16 && list != {} && forall i | i in list :: i < 16 }

    function Order(): seq<nat> { Ascending(list, 0) }

    /** Where the lowest register goes, by addressing mode. */
    function Start(base: U32): U32 {
      if up && !pre then base                            // increment after
      else if up then Plus(base, 4)                      // increment before
      else if !pre then Plus(base, 4 - 4 * |list|)       // decrement after
      else Plus(base, -4 * |list|)                       // decrement before
    }

    function Writeback(base: U32): U32 {
      if up then Plus(base, 4 * |list|) else Plus(base, -4 * |list|)
    }

    // The address of the k-th lowest register.
    function Address(base: U32, k: nat): U32 { Plus(Start(base), 4 * k) }
  }

  // -------- memory --------

  type Words = map<nat, U32>

  function Read(mem: Words, a: U32): U32 { if a / 4 in mem then mem[a / 4] else 0 }

  function Write(mem: Words, a: U32, v: U32): Words { mem[a / 4 := v] }

  // Values stored one after another.
  function Stored(mem: Words, t: Instr, base: U32, values: seq<U32>): Words {
    var n := |values|;
    if n == 0 then mem else Write(Stored(mem, t, base, values[..n - 1]), t.Address(base, n - 1), values[n - 1])
  }

  lemma AddressesDiffer(t: Instr, base: U32, j: nat, k: nat)
    requires j < k < 16
    ensures t.Address(base, j) / 4 != t.Address(base, k) / 4
  {
    var s := t.Start(base);
    var a, b := Wrap(s + 4 * j), Wrap(s + 4 * k);
    assert a == s + 4 * j || a == s + 4 * j - 0x1_0000_0000;
    assert b == s + 4 * k || b == s + 4 * k - 0x1_0000_0000;
  }

  /** Each word is where its register's turn is, and nothing else has changed. */
  lemma {:induction false} StoredAt(mem: Words, t: Instr, base: U32, values: seq<U32>, k: nat)
    requires k < |values| <= 16
    ensures Read(Stored(mem, t, base, values), t.Address(base, k)) == values[k]
    decreases |values|
  {
    var n := |values|;
    if k < n - 1 {
      AddressesDiffer(t, base, k, n - 1);
      StoredAt(mem, t, base, values[..n - 1], k);
    }
  }

  lemma {:induction false} StoredElsewhere(mem: Words, t: Instr, base: U32, values: seq<U32>, w: nat)
    requires |values| <= 16 && forall k | 0 <= k < |values| :: t.Address(base, k) / 4 != w
    ensures (w in Stored(mem, t, base, values) <==> w in mem)
      && (w in mem ==> Stored(mem, t, base, values)[w] == mem[w])
    decreases |values|
  {
    if values != [] {
      StoredElsewhere(mem, t, base, values[..|values| - 1], w);
    }
  }

  // -------- the user bank --------

  // The register that UserTransferReg refers to, read and written.
  function UserValue(regs: Registers, mode: Mode, reg: nat): U32
    requires regs.Valid() && reg < 16
  {
    if mode == FIQ && 8 <= reg < 15 then regs.fiq[reg - 8]
    else if !(13 <= reg < 15) then regs.r[reg]
    else if mode == IRQ then regs.irq[reg - 13]
    else if mode == SVC then regs.svc[reg - 13]
    else if mode == ABT then regs.abt[reg - 13]
    else if mode == UND then regs.und[reg - 13]
    else regs.r[reg]
  }

  function SetUser(regs: Registers, mode: Mode, reg: nat, v: U32): (s: Registers)
    requires regs.Valid() && reg < 16
    ensures s.Valid()
  {
    if mode == FIQ && 8 <= reg < 15 then regs.(fiq := regs.fiq[reg - 8 := v])
    else if !(13 <= reg < 15) then regs.(r := regs.r[reg := v])
    else if mode == IRQ then regs.(irq := regs.irq[reg - 13 := v])
    else if mode == SVC then regs.(svc := regs.svc[reg - 13 := v])
    else if mode == ABT then regs.(abt := regs.abt[reg - 13 := v])
    else if mode == UND then regs.(und := regs.und[reg - 13 := v])
    else regs.(r := regs.r[reg := v])
  }

  /** It is the register that user mode sees. */
  lemma UserIsUserView(regs: Registers, mode: Mode, reg: nat, v: U32)
    requires regs.Valid() && reg < 16
    ensures UserValue(regs, mode, reg) == View(regs, mode, USER, reg)
    ensures reg < 15 ==> ViewsBut(regs, mode, SetUser(regs, mode, reg, v), mode, UserBank, reg, v)
  {
  }

  // -------- STM --------

  // In user-bank stores the base is an ordinary value if the current mode has its own.
  predicate BaseIsBanked(mode: Mode, t: Instr) {
    t.s && if mode == FIQ then 8 <= t.rn < 15 else mode != USER && mode != 0x1F && 13 <= t.rn < 15
  }

  // What register i stores, as the k-th lowest of the list. A base that is not the lowest register stores the
  // address itself on the ARM7, and the ARM7's PC is one stage later.
  function StoredValue(regs: Registers, mode: Mode, num: nat, t: Instr, i: nat, k: nat): U32
    requires regs.Valid() && t.rn < 16 && i < 16
  {
    var base := regs.r[t.rn];
    if i == t.rn && !BaseIsBanked(mode, t) then
      if num == 0 || k == 0 then base else t.Address(base, k)
    else
      Plus(if t.s then UserValue(regs, mode, i) else regs.r[i], if i == 15 && num == 1 then 4 else 0)
  }

  lemma OrderInRange(t: Instr)
    requires t.Valid()
    ensures |t.Order()| == |t.list| <= 16 && forall k | 0 <= k < |t.Order()| :: t.Order()[k] in t.list && t.Order()[k] < 16
  {
    AscendingIs(t.list, 0);
    AscendingCounts(t.list, 0);
    OrderBound(t.list, 0);
    forall k | 0 <= k < |t.Order()| ensures t.Order()[k] in t.list {
      assert t.Order()[k] in t.Order();
    }
  }

  lemma {:induction false} OrderBound(list: set<nat>, from: nat)
    requires from <= 16
    ensures |Ascending(list, from)| <= 16 - from
    decreases 16 - from
  {
    if from < 16 {
      OrderBound(list, from + 1);
    }
  }

  function StoredValues(regs: Registers, mode: Mode, num: nat, t: Instr): (values: seq<U32>)
    requires regs.Valid() && t.Valid()
    ensures |values| == |t.list|
  {
    OrderInRange(t);
    seq(|t.Order()|, k requires 0 <= k < |t.Order()| => StoredValue(regs, mode, num, t, t.Order()[k], k))
  }

  method DataWrite32(cpu: ArmCpu, addr: U32, val: U32) returns (ok: bool)
    requires cpu.Valid()
    modifies cpu
    ensures cpu.Valid() && ok == (cpu.num == 1 || cpu.writable(addr))
    ensures ok ==> cpu.mem == Write(old(cpu.mem), addr, val)
    ensures ok ==> cpu.regs == old(cpu.regs) && cpu.cpsr == old(cpu.cpsr) && cpu.spsr == old(cpu.spsr)
    ensures !ok ==> cpu.mem == old(cpu.mem) && AbortEntered(cpu)
  {
    if cpu.num == 0 && !cpu.writable(addr) {
      cpu.DataAbort();
      return false;
    }
    cpu.mem := Write(cpu.mem, addr, val);
    return true;
  }

  // A data abort has been taken: registers keep their views but for its link register.
  twostate predicate AbortEntered(cpu: ArmCpu)
    requires old(cpu.Valid()) && cpu.Valid()
    reads cpu
  {
    cpu.Entered(AbtBank, ABT, Plus(old(cpu.regs.r[15]), if old(cpu.cpsr.thumb) then 4 else 0))
  }

  // Whether the k-th access is let through.
  predicate MayStore(cpu: ArmCpu, t: Instr, base: U32, k: nat) {
    cpu.num == 1 || cpu.writable(t.Address(base, k))
  }

  // The accesses of a store, up to the first that is refused.
  method StoreList(cpu: ArmCpu, t: Instr) returns (fault: nat, base: U32)
    requires cpu.Valid() && t.Valid()
    modifies cpu
    ensures cpu.Valid() && fault <= |t.list|
    ensures var base0 := old(cpu.regs).r[t.rn];
      && (forall k | 0 <= k < fault :: MayStore(cpu, t, base0, k))
      && (fault < |t.list| ==> !MayStore(cpu, t, base0, fault) && AbortEntered(cpu))
      && cpu.mem == Stored(old(cpu.mem), t, base0, StoredValues(old(cpu.regs), old(cpu.cpsr.mode), cpu.num, t)[..fault])
      && (fault == |t.list| ==> cpu.regs == old(cpu.regs) && cpu.cpsr == old(cpu.cpsr))
      && (fault == |t.list| ==> (if t.pre == t.up then Plus(base, 4) else base) == t.Address(base0, fault))
  {
    hide ArmCpu.EnteredFrom, Ascending, Plus, Wrap, Stored, StoredValue, StoredValues, BaseIsBanked, UserValue,
      Instr.Address, Instr.Start;
    OrderInRange(t);
    var oldbase := cpu.regs.r[t.rn];
    base := oldbase;
    var preinc := t.pre;
    if !t.up {
      base := Plus(base, -4 * |t.list|);
      preinc := !preinc;
    }
    var isbanked := BaseIsBanked(cpu.cpsr.mode, t);
    ghost var values := StoredValues(cpu.regs, cpu.cpsr.mode, cpu.num, t);
    var regs := t.list;
    fault := 0;
    FirstAddress(t, oldbase);
    StoredNone(cpu.mem, t, oldbase, values);
    while regs != {}
      invariant cpu.Valid() && cpu.regs == old(cpu.regs) && cpu.cpsr == old(cpu.cpsr) && cpu.spsr == old(cpu.spsr)
      invariant regs <= t.list && fault + |regs| == |t.list| && t.Order()[fault..] == Ascending(regs, 0)
      invariant (if preinc then Plus(base, 4) else base) == t.Address(oldbase, fault)
      invariant forall k | 0 <= k < fault :: MayStore(cpu, t, oldbase, k)
      invariant cpu.mem == Stored(old(cpu.mem), t, oldbase, values[..fault])
      decreases regs
    {
      var i := Lowest(regs);
      AscendingHead(regs, i, 0);
      assert t.Order()[fault] == i;
      if preinc {
        base := Plus(base, 4);
      }
      var value := ValueToStore(cpu.regs, cpu.cpsr.mode, cpu.num, t, fault, oldbase, base, isbanked);
      StoredNext(old(cpu.mem), t, oldbase, values, fault);
      var ok := DataWrite32(cpu, base, value);
      if !ok {
        return;
      }
      NextAddress(t, oldbase, fault);
      regs := regs - {i};
      fault := fault + 1;
      if !preinc {
        base := Plus(base, 4);
      }
    }
  }

  /**
    Stores the listed registers in ascending order at the mode's addresses. The first access
    that is refused, the fault-th, ends it, with the base not written back.
  */
  method A_STM(cpu: ArmCpu, t: Instr) returns (fault: nat)
    requires cpu.Valid() && t.Valid()
    modifies cpu
    ensures cpu.Valid() && fault <= |t.list|
    ensures var base := old(cpu.regs).r[t.rn];
      && (forall k | 0 <= k < fault :: MayStore(cpu, t, base, k))
      && (fault < |t.list| ==> !MayStore(cpu, t, base, fault))
      && cpu.mem == Stored(old(cpu.mem), t, base, StoredValues(old(cpu.regs), old(cpu.cpsr.mode), cpu.num, t)[..fault])
      && (fault < |t.list| ==> AbortEntered(cpu))
      && (fault == |t.list| ==> cpu.cpsr == old(cpu.cpsr))
      && (fault == |t.list| ==>
            cpu.regs == if t.w then old(cpu.regs).(r := old(cpu.regs).r[t.rn := t.Writeback(base)]) else old(cpu.regs))
  {
    hide ArmCpu.EnteredFrom, Plus, Stored, StoredValues, Instr.Address, Instr.Writeback, Instr.Start;
    var baseid, oldbase: U32 := t.rn, cpu.regs.r[t.rn];
    var base: U32;
    fault, base := StoreList(cpu, t);
    if fault < |t.list| {
      return;
    }
    if t.w {
      LastAddress(t, oldbase, base, t.pre == t.up);
      cpu.regs := cpu.regs.(r := cpu.regs.r[baseid := if t.up then base else Plus(oldbase, -4 * |t.list|)]);
    }
  }

  lemma StoredNone(mem: Words, t: Instr, base: U32, values: seq<U32>)
    ensures Stored(mem, t, base, values[..0]) == mem
  {
  }

  lemma StoredNext(mem: Words, t: Instr, base: U32, values: seq<U32>, k: nat)
    requires k < |values|
    ensures Stored(mem, t, base, values[..k + 1]) == Write(Stored(mem, t, base, values[..k]), t.Address(base, k), values[k])
  {
    assert values[..k + 1][..k] == values[..k];
  }

  // What STM has at hand for its k-th register, at address `base`.
  method ValueToStore(regs: Registers, mode: Mode, num: nat, t: Instr, k: nat, oldbase: U32, base: U32, isbanked: bool)
    returns (value: U32)
    requires regs.Valid() && t.Valid() && k < |t.list| && oldbase == regs.r[t.rn] && base == t.Address(oldbase, k)
    requires isbanked == BaseIsBanked(mode, t)
    ensures k < |StoredValues(regs, mode, num, t)| && value == StoredValues(regs, mode, num, t)[k]
  {
    hide Ascending, Plus, UserValue, BaseIsBanked, Instr.Address;
    OrderInRange(t);
    LowestIsFirst(t, k);
    var i := t.Order()[k];
    if i == t.rn && !isbanked {
      var lower := exists x | x in t.list :: x < i;
      value := if num == 0 || !lower then oldbase else base;
    } else {
      value := Plus(if t.s then UserValue(regs, mode, i) else regs.r[i], if i == 15 && num == 1 then 4 else 0);
    }
  }

  lemma LowestIsFirst(t: Instr, k: nat)
    requires t.Valid() && k < |t.Order()|
    ensures (exists x | x in t.list :: x < t.Order()[k]) <==> k > 0
  {
    hide Ascending;
    AscendingIs(t.list, 0);
    var order := t.Order();
    assert order[k] in order && order[0] in order;
    if k > 0 {
      assert order[0] < order[k];
    } else {
      forall x | x in t.list ensures x >= order[0] {
        assert x in order;
      }
    }
  }

  lemma FirstAddress(t: Instr, base: U32)
    requires t.Valid()
    ensures var cur := if t.up then base else Plus(base, -4 * |t.list|);
      (if t.pre == t.up then Plus(cur, 4) else cur) == t.Address(base, 0)
  {
    PlusPlus(base, -4 * |t.list|, 4);
    assert Plus(t.Start(base), 0) == t.Start(base);
  }

  lemma NextAddress(t: Instr, base: U32, k: nat)
    ensures Plus(t.Address(base, k), 4) == t.Address(base, k + 1)
  {
    PlusPlus(t.Start(base), 4 * k, 4);
  }

  lemma PlusPlus(x: U32, a: int, b: int)
    ensures Plus(Plus(x, a), b) == Plus(x, a + b)
  {
    WrapOnce(x + a, b);
  }

  lemma WrapOnce(x: int, b: int)
    ensures Wrap(Wrap(x) + b) == Wrap(x + b)
  {
    var q := x / 0x1_0000_0000;
    assert x == q * 0x1_0000_0000 + Wrap(x);
    ShiftWraps(Wrap(x) + b, q);
  }

  lemma ShiftWraps(y: int, q: int)
    ensures Wrap(y + q * 0x1_0000_0000) == Wrap(y)
  {
  }

  // Behind the last word an incrementing transfer has reached its writeback value.
  lemma LastAddress(t: Instr, oldbase: U32, base: U32, preinc: bool)
    requires t.Valid() && preinc == (t.pre == t.up)
    requires (if preinc then Plus(base, 4) else base) == t.Address(oldbase, |t.list|)
    ensures if t.up then base == t.Writeback(oldbase) else Plus(oldbase, -4 * |t.list|) == t.Writeback(oldbase)
  {
    hide Plus, Wrap;
    PlusZero(base);
    PlusZero(oldbase);
    if t.up {
      PlusPlus(base, if preinc then 4 else 0, if preinc then -4 else 0);
      PlusPlus(t.Start(oldbase), 4 * |t.list|, if preinc then -4 else 0);
      PlusPlus(oldbase, if t.pre then 4 else 0, 4 * |t.list| + if preinc then -4 else 0);
    }
  }

  // -------- LDM --------

  // A register loaded, in the current or in the user bank.
  function Load(regs: Registers, mode: Mode, user: bool, reg: nat, v: U32): (s: Registers)
    requires regs.Valid() && reg < 16
    ensures s.Valid()
  {
    if user then SetUser(regs, mode, reg, v) else regs.(r := regs.r[reg := v])
  }

  // The registers after the k lowest of the list have been loaded.
  function Loaded(regs: Registers, mode: Mode, user: bool, mem: Words, t: Instr, base: U32, order: seq<nat>, k: nat): (s: Registers)
    requires regs.Valid() && k <= |order| && forall j | 0 <= j < |order| :: order[j] < 16
    ensures s.Valid()
  {
    if k == 0 then regs
    else Load(Loaded(regs, mode, user, mem, t, base, order, k - 1), mode, user, order[k - 1], Read(mem, t.Address(base, k - 1)))
  }

  // The same, for an instruction.
  function LoadedBy(regs: Registers, mode: Mode, mem: Words, t: Instr, k: nat): (s: Registers)
    requires regs.Valid() && t.Valid() && k <= |t.list|
    ensures s.Valid()
  {
    OrderInRange(t);
    Loaded(regs, mode, LoadsUser(t), mem, t, regs.r[t.rn], t.Order(), k)
  }

  // The user bank is loaded if bit 22 is set and PC is not listed.
  predicate LoadsUser(t: Instr) { t.s && 15 !in t.list }

  // The bank that a load of register x writes to.
  function LoadBank(mode: Mode, user: bool, x: nat): Bank { if user then UserBank else BankOf(mode, x) }

  lemma LoadChangesView(regs: Registers, mode: Mode, user: bool, reg: nat, v: U32)
    requires regs.Valid() && reg < 15
    ensures ViewsBut(regs, mode, Load(regs, mode, user, reg, v), mode, LoadBank(mode, user, reg), reg, v)
  {
    hide View, ViewsBut, SetUser;
    if user {
      UserIsUserView(regs, mode, reg, v);
    } else {
      WriteChangesView(regs, mode, reg, v);
    }
  }

  /**
    As seen from all modes: a listed register of the bank that is loaded has its word, every other
    register of every mode is as it was.
  */
  lemma {:induction false} LoadedViews(regs: Registers, mode: Mode, user: bool, mem: Words, t: Instr, base: U32, order: seq<nat>, n: nat,
                                       m: Mode, x: nat)
    requires regs.Valid() && n <= |order| && x < 15 && forall j | 0 <= j < |order| :: order[j] < 15
    requires forall j, k | 0 <= j < k < |order| :: order[j] < order[k]
    ensures x !in order[..n] || BankOf(m, x) != LoadBank(mode, user, x) ==>
      View(Loaded(regs, mode, user, mem, t, base, order, n), mode, m, x) == View(regs, mode, m, x)
    ensures forall k | 0 <= k < n && order[k] == x && BankOf(m, x) == LoadBank(mode, user, x) ::
      View(Loaded(regs, mode, user, mem, t, base, order, n), mode, m, x) == Read(mem, t.Address(base, k))
    decreases n
  {
    hide Read, Instr.Address, View, BankOf, Load;
    if n > 0 {
      LoadedViews(regs, mode, user, mem, t, base, order, n - 1, m, x);
      LoadChangesView(Loaded(regs, mode, user, mem, t, base, order, n - 1), mode, user, order[n - 1], Read(mem, t.Address(base, n - 1)));
      assert order[..n] == order[..n - 1] + [order[n - 1]];
    }
  }

  // The mode whose registers are transferred: bit 22 stands for user mode.
  function Transferred(mode: Mode, t: Instr): Mode { if t.s then USER else mode }

  /**
    An LDM of what an STM of the same registers has stored, at the same addresses, from whatever
    modes: the listed registers of the mode that is transferred have the values they had when they
    were stored, and every other register of every mode is as it was. With bit 22 set, these are
    the registers of user mode.
  */
  lemma LoadRestoresStore(regs: Registers, mode: Mode, now: Registers, mode': Mode, num: nat, t: Instr, u: Instr, mem: Words, m: Mode, x: nat)
    requires regs.Valid() && now.Valid() && t.Valid() && u.Valid() && x < 15
    requires u.list == t.list && u.s == t.s && t.rn !in t.list && 15 !in t.list
    requires u.Start(now.r[u.rn]) == t.Start(regs.r[t.rn])
    ensures var stored := Stored(mem, t, regs.r[t.rn], StoredValues(regs, mode, num, t));
      View(LoadedBy(now, mode', stored, u, |u.list|), mode', m, x) ==
        if x in t.list && BankOf(m, x) == BankOf(Transferred(mode', t), x) then View(regs, mode, Transferred(mode, t), x)
        else View(now, mode', m, x)
  {
    hide Ascending, Plus, UserValue, Stored, Instr.Address, Loaded, Read, View, BankOf, Instr.Start;
    var base, base' := regs.r[t.rn], now.r[u.rn];
    OrderInRange(t);
    AscendingIs(t.list, 0);
    OrderBelowPc(t);
    var values := StoredValues(regs, mode, num, t);
    var stored := Stored(mem, t, base, values);
    LoadedViews(now, mode', LoadsUser(u), stored, u, base', u.Order(), |u.list|, m, x);
    assert u.Order()[..|u.list|] == u.Order() == t.Order();
    UserBanks(mode', t, x);
    if x in t.list {
      var k :| 0 <= k < |t.Order()| && t.Order()[k] == x;
      StoredAt(mem, t, base, values, k);
      SameAddresses(t, base, u, base', k);
      StoredIsView(regs, mode, num, t, x, k);
    }
  }

  lemma OrderBelowPc(t: Instr)
    requires t.Valid() && 15 !in t.list
    ensures forall k | 0 <= k < |t.Order()| :: t.Order()[k] < 15
  {
    hide Ascending;
    OrderInRange(t);
  }

  lemma UserBanks(mode: Mode, t: Instr, x: nat)
    requires 15 !in t.list
    ensures LoadBank(mode, LoadsUser(t), x) == BankOf(Transferred(mode, t), x)
  {
  }

  lemma SameAddresses(t: Instr, base: U32, u: Instr, base': U32, k: nat)
    requires u.Start(base') == t.Start(base)
    ensures u.Address(base', k) == t.Address(base, k)
  {
  }

  // A register other than the base stores its value in the mode that is transferred.
  lemma StoredIsView(regs: Registers, mode: Mode, num: nat, t: Instr, x: nat, k: nat)
    requires regs.Valid() && t.Valid() && x < 15 && x != t.rn
    ensures StoredValue(regs, mode, num, t, x, k) == View(regs, mode, Transferred(mode, t), x)
  {
    hide Instr.Address, Plus;
    UserIsUserView(regs, mode, x, 0);
    PlusZero(if t.s then UserValue(regs, mode, x) else regs.r[x]);
  }

  /** What has been pushed, decrementing before, is popped by incrementing after. */
  lemma PushPopAddresses(t: Instr, u: Instr, base: U32)
    requires t.Valid() && u.Valid() && u.list == t.list && t.pre && !t.up && !u.pre && u.up
    ensures u.Start(t.Writeback(base)) == t.Start(base) && u.Writeback(t.Writeback(base)) == base
  {
    PlusPlus(base, -4 * |t.list|, 4 * |t.list|);
    PlusZero(base);
  }

  lemma PlusZero(x: U32)
    ensures Plus(x, 0) == x
  {
  }

  method DataRead32(cpu: ArmCpu, addr: U32) returns (ok: bool, val: U32)
    requires cpu.Valid()
    modifies cpu
    ensures cpu.Valid() && ok == (cpu.num == 1 || cpu.readable(addr)) && cpu.mem == old(cpu.mem)
    ensures ok ==> val == Read(cpu.mem, addr)
    ensures ok ==> cpu.regs == old(cpu.regs) && cpu.cpsr == old(cpu.cpsr) && cpu.spsr == old(cpu.spsr)
    ensures !ok ==> AbortEntered(cpu) && cpu.cpsr.mode == ABT
  {
    if cpu.num == 0 && !cpu.readable(addr) {
      cpu.DataAbort();
      return false, 0;
    }
    return true, Read(cpu.mem, addr);
  }

  // Whether an abort can give the base back: PC is in use, and so is Abort mode's own link register.
  predicate Restores(reg: nat, mode: Mode) { reg != 15 && !(reg == 14 && mode == ABT) }

  /** After an abort, gives the base register its old value in the mode it belongs to. */
  method RestoreTransferBase(cpu: ArmCpu, reg: nat, base: U32, oldmode: Mode)
    requires cpu.Valid() && reg < 16
    modifies cpu`regs, cpu`userMap
    ensures cpu.Valid() && cpu.userMap == old(cpu.userMap)
    ensures if Restores(reg, oldmode)
      then ViewsBut(old(cpu.regs), cpu.cpsr.mode, cpu.regs, cpu.cpsr.mode, BankOf(oldmode, reg), reg, base)
      else cpu.regs == old(cpu.regs)
  {
    hide View, Switched;
    if reg == 15 || (reg == 14 && oldmode == ABT) {
      return;
    }
    ghost var before := cpu.regs;
    cpu.UpdateMode(cpu.cpsr.mode, oldmode, true);
    ghost var there := cpu.regs;
    WriteChangesView(cpu.regs, oldmode, reg, base);
    cpu.regs := cpu.regs.(r := cpu.regs.r[reg := base]);
    ghost var written := cpu.regs;
    cpu.UpdateMode(oldmode, cpu.cpsr.mode, true);
    ThereAndBack(before, there, written, cpu.regs, cpu.cpsr.mode, oldmode, BankOf(oldmode, reg), reg, base);
  }

  lemma ThereAndBack(before: Registers, there: Registers, written: Registers, after: Registers,
                     mode: Mode, other: Mode, bank: Bank, reg: nat, value: U32)
    requires before.Valid() && there.Valid() && written.Valid() && after.Valid()
    requires SameViews(before, mode, there, other) && ViewsBut(there, other, written, other, bank, reg, value)
    requires SameViews(written, other, after, mode)
    ensures ViewsBut(before, mode, after, mode, bank, reg, value)
  {
    hide View;
  }

  // The registers after the writeback of a load.
  function WrittenBack(regs: Registers, num: nat, t: Instr, base: U32): (s: Registers)
    requires regs.Valid() && t.rn < 16
    ensures s.Valid()
  {
    var others, above := exists i :: i in t.list && i != t.rn, exists i :: i in t.list && i > t.rn;
    if t.w && (t.rn !in t.list || (num == 0 && (!others || above))) then regs.(r := regs.r[t.rn := t.Writeback(base)])
    else regs
  }

  // From registers `loaded` of a mode, an abort has been entered and the base given back.
  ghost predicate BaseRestored(loaded: Registers, mode: Mode, after: Registers, rn: nat, link: U32, base: U32)
    requires loaded.Valid() && after.Valid()
  {
    forall m: Mode, x: nat | x < 15 :: View(after, ABT, m, x) == (
      if x == rn && BankOf(m, x) == BankOf(mode, x) && Restores(x, mode) then base
      else if x == 14 && BankOf(m, x) == AbtBank then link
      else View(loaded, mode, m, x))
  }

  // An aborted load: the loaded registers keep their values, but the base has its old one.
  twostate predicate LoadAborted(cpu: ArmCpu, t: Instr, loaded: Registers, base: U32)
    requires old(cpu.Valid()) && cpu.Valid() && loaded.Valid()
    reads cpu
  {
    var mode, link := old(cpu.cpsr.mode), Plus(old(cpu.regs.r[15]), if old(cpu.cpsr.thumb) then 4 else 0);
    && cpu.cpsr.mode == ABT && cpu.spsr == old(cpu.spsr)[AbtBank := old(cpu.cpsr)]
    && BaseRestored(loaded, mode, cpu.regs, t.rn, link, base)
  }

  lemma AbortedViews(loaded: Registers, entered: Registers, after: Registers, mode: Mode, rn: nat, link: U32, base: U32)
    requires loaded.Valid() && entered.Valid() && after.Valid() && rn < 16
    requires ViewsBut(loaded, mode, entered, ABT, AbtBank, 14, link)
    requires if Restores(rn, mode) then ViewsBut(entered, ABT, after, ABT, BankOf(mode, rn), rn, base) else after == entered
    ensures BaseRestored(loaded, mode, after, rn, link, base)
  {
    hide View;
  }

  // PC, if listed, comes last.
  lemma {:induction false} PcIsLast(list: set<nat>, from: nat)
    requires 15 in list && from <= 15
    ensures Ascending(list, from) == Ascending(list - {15}, from) + [15]
    decreases 15 - from
  {
    if from < 15 {
      PcIsLast(list, from + 1);
    } else {
      assert Ascending(list, 16) == [] && Ascending(list - {15}, 16) == [];
    }
  }

  // A load that is refused in the middle of the list.
  method AbortLoad(cpu: ArmCpu, t: Instr, base: U32, oldmode: Mode, ghost loaded: Registers, ghost link: U32)
    requires cpu.Valid() && t.Valid() && cpu.cpsr.mode == ABT
    requires loaded.Valid() && ViewsBut(loaded, oldmode, cpu.regs, ABT, AbtBank, 14, link)
    modifies cpu`regs, cpu`userMap
    ensures cpu.Valid()
    ensures BaseRestored(loaded, oldmode, cpu.regs, t.rn, link, base)
  {
    hide View, ViewsBut;
    ghost var entered := cpu.regs;
    RestoreTransferBase(cpu, t.rn, base, oldmode);
    AbortedViews(loaded, entered, cpu.regs, oldmode, t.rn, link, base);
  }

  lemma LoadedNone(regs: Registers, mode: Mode, user: bool, mem: Words, t: Instr, base: U32, order: seq<nat>)
    requires regs.Valid() && forall j | 0 <= j < |order| :: order[j] < 16
    ensures Loaded(regs, mode, user, mem, t, base, order, 0) == regs
  {
  }

  lemma LoadedNext(regs: Registers, mode: Mode, user: bool, mem: Words, t: Instr, base: U32, order: seq<nat>, k: nat)
    requires regs.Valid() && k < |order| && forall j | 0 <= j < |order| :: order[j] < 16
    ensures Loaded(regs, mode, user, mem, t, base, order, k + 1) ==
      Load(Loaded(regs, mode, user, mem, t, base, order, k), mode, user, order[k], Read(mem, t.Address(base, k)))
  {
  }

  lemma {:induction false} LoadedKeepsPc(regs: Registers, mode: Mode, user: bool, mem: Words, t: Instr, base: U32, order: seq<nat>, k: nat)
    requires regs.Valid() && k <= |order| && (forall j | 0 <= j < |order| :: order[j] < 16) && forall j | 0 <= j < k :: order[j] < 15
    ensures Loaded(regs, mode, user, mem, t, base, order, k).r[15] == regs.r[15]
  {
    hide Read, Instr.Address;
    if k > 0 {
      LoadedKeepsPc(regs, mode, user, mem, t, base, order, k - 1);
    }
  }

  ghost predicate MayLoad(cpu: ArmCpu, t: Instr, base: U32, k: nat) {
    cpu.num == 1 || cpu.readable(t.Address(base, k))
  }

  // One register of a load, or the end of it.
  method LoadOne(cpu: ArmCpu, t: Instr, oldbase: U32, addr: U32, user: bool, i: nat) returns (ok: bool)
    requires cpu.Valid() && t.Valid() && i < 16
    modifies cpu
    ensures cpu.Valid() && cpu.mem == old(cpu.mem) && ok == (cpu.num == 1 || cpu.readable(addr))
    ensures ok ==> cpu.regs == Load(old(cpu.regs), cpu.cpsr.mode, user, i, Read(cpu.mem, addr))
    ensures ok ==> cpu.cpsr == old(cpu.cpsr) && cpu.spsr == old(cpu.spsr)
    ensures !ok ==> LoadAborted(cpu, t, old(cpu.regs), oldbase)
  {
    hide BaseRestored, ViewsBut, View, Load, Read, Plus;
    var oldmode := cpu.cpsr.mode;
    ghost var loaded, link := cpu.regs, Plus(cpu.regs.r[15], if cpu.cpsr.thumb then 4 else 0);
    var v: U32;
    ok, v := DataRead32(cpu, addr);
    if !ok {
      AbortLoad(cpu, t, oldbase, oldmode, loaded, link);
    } else {
      cpu.regs := Load(cpu.regs, oldmode, user, i, v);
    }
  }

  /**
    Loads the listed registers but PC in ascending order. A refused access, the fault-th, aborts:
    what was loaded stays, and the base gets its old value back.
  */
  method LoadList(cpu: ArmCpu, t: Instr) returns (fault: nat, base: U32)
    requires cpu.Valid() && t.Valid()
    modifies cpu
    ensures cpu.Valid() && cpu.mem == old(cpu.mem)
    ensures fault <= |t.list|
    ensures var oldbase, n := old(cpu.regs).r[t.rn], |t.list - {15}|;
      var loaded := LoadedBy(old(cpu.regs), old(cpu.cpsr.mode), cpu.mem, t, fault);
      && fault <= n && (forall k | 0 <= k < fault :: MayLoad(cpu, t, oldbase, k))
      && (fault < n ==> !MayLoad(cpu, t, oldbase, fault) && LoadAborted(cpu, t, loaded, oldbase))
      && (fault == n ==> cpu.regs == loaded && cpu.cpsr == old(cpu.cpsr) && cpu.spsr == old(cpu.spsr))
      && (fault == n ==> (if t.pre == t.up then Plus(base, 4) else base) == t.Address(oldbase, n))
  {
    hide Loaded, BaseRestored, ViewsBut, View, Ascending, Plus, Wrap, Read, Load, SetUser, Instr.Address;
    OrderInRange(t);
    OrderSplit(t);
    ghost var order := t.Order();
    var mode := cpu.cpsr.mode;
    var oldbase: U32 := cpu.regs.r[t.rn];
    base := oldbase;
    var preinc := t.pre;
    if !t.up {
      base := Plus(base, -4 * |t.list|);
      preinc := !preinc;
    }
    var user := t.s && 15 !in t.list;
    var regs := t.list - {15};
    ghost var n := |regs|;
    fault := 0;
    FirstAddress(t, oldbase);
    LoadedNone(cpu.regs, mode, user, cpu.mem, t, oldbase, order);
    while regs != {}
      invariant cpu.Valid() && cpu.cpsr == old(cpu.cpsr) && cpu.spsr == old(cpu.spsr) && cpu.mem == old(cpu.mem)
      invariant regs <= t.list - {15} && fault + |regs| == n && order[fault..n] == Ascending(regs, 0)
      invariant (if preinc then Plus(base, 4) else base) == t.Address(oldbase, fault)
      invariant forall k | 0 <= k < fault :: MayLoad(cpu, t, oldbase, k)
      invariant cpu.regs == Loaded(old(cpu.regs), mode, user, cpu.mem, t, oldbase, order, fault)
      decreases regs
    {
      var i := Lowest(regs);
      AscendingHead(regs, i, 0);
      assert order[fault] == order[fault..n][0] == i;
      if preinc {
        base := Plus(base, 4);
      }
      LoadedKeepsPc(old(cpu.regs), mode, user, cpu.mem, t, oldbase, order, fault);
      LoadedNext(old(cpu.regs), mode, user, cpu.mem, t, oldbase, order, fault);
      var ok := LoadOne(cpu, t, oldbase, base, user, i);
      if !ok {
        return;
      }
      NextAddress(t, oldbase, fault);
      regs := regs - {i};
      fault := fault + 1;
      if !preinc {
        base := Plus(base, 4);
      }
    }
  }

  // The part of the order before PC.
  lemma OrderSplit(t: Instr)
    requires t.Valid()
    ensures var n := |t.list - {15}|;
      n <= |t.Order()| && t.Order()[0..n] == Ascending(t.list - {15}, 0)
      && (forall k | 0 <= k < n :: t.Order()[k] < 15) && (15 in t.list ==> n == |t.list| - 1 == |t.Order()| - 1 && t.Order()[n] == 15)
      && (15 !in t.list ==> n == |t.list|)
  {
    hide Ascending;
    var rest := t.list - {15};
    OrderInRange(t);
    AscendingCounts(rest, 0);
    AscendingIs(rest, 0);
    if 15 in t.list {
      PcIsLast(t.list, 0);
      assert t.list == rest + {15};
    } else {
      assert rest == t.list;
    }
    forall k | 0 <= k < |rest| ensures t.Order()[k] < 15 {
      assert Ascending(rest, 0)[k] in Ascending(rest, 0);
    }
  }

  lemma LoadedByKeepsPc(regs: Registers, mode: Mode, mem: Words, t: Instr, k: nat)
    requires regs.Valid() && t.Valid() && k <= |t.list - {15}| && k <= |t.list|
    ensures LoadedBy(regs, mode, mem, t, k).r[15] == regs.r[15]
  {
    OrderInRange(t);
    OrderSplit(t);
    LoadedKeepsPc(regs, mode, LoadsUser(t), mem, t, regs.r[t.rn], t.Order(), k);
  }

  /**
    LDM: loads the list, PC last, writes the base back by its rules, and branches if PC was
    listed. Any refused access gives the base back its old value in the mode it came from.
  */
  method A_LDM(cpu: ArmCpu, t: Instr) returns (fault: nat)
    requires cpu.Valid() && t.Valid()
    modifies cpu
    ensures cpu.Valid() && cpu.mem == old(cpu.mem) && fault <= |t.list|
    ensures var oldbase, mode := old(cpu.regs).r[t.rn], old(cpu.cpsr.mode);
      var loaded := LoadedBy(old(cpu.regs), mode, cpu.mem, t, fault);
      && (forall k | 0 <= k < fault :: MayLoad(cpu, t, oldbase, k))
      && (fault < |t.list| ==> !MayLoad(cpu, t, oldbase, fault) && LoadAborted(cpu, t, loaded, oldbase))
      && (fault == |t.list| && 15 !in t.list ==>
            cpu.regs == WrittenBack(loaded, cpu.num, t, oldbase) && cpu.cpsr == old(cpu.cpsr) && cpu.spsr == old(cpu.spsr))
    ensures fault == |t.list| && 15 in t.list ==> Branched(cpu, t)
  {
    hide BaseRestored, ViewsBut, View, Ascending, Plus, Wrap, Read, Load, Instr.Address, LoadedBy, WrittenBack;
    OrderSplit(t);
    var oldbase := cpu.regs.r[t.rn];
    ghost var mode, n := cpu.cpsr.mode, |t.list - {15}|;
    var base: U32;
    fault, base := LoadList(cpu, t);
    if fault < |t.list - {15}| {
      return;
    }
    var pc: U32 := 0;
    if 15 in t.list {
      LoadedByKeepsPc(old(cpu.regs), mode, cpu.mem, t, n);
      if t.pre == t.up {
        base := Plus(base, 4);
      }
      var ok;
      ok, pc := LoadPc(cpu, t, oldbase, base);
      if !ok {
        return;
      }
      fault := fault + 1;
    }
    WriteBack(cpu, t, oldbase);
    if 15 in t.list {
      assert cpu.regs == BeforeBranch(old(cpu.regs), mode, cpu.num, cpu.mem, t);
      cpu.JumpTo(pc, t.s);
    }
  }

  // The last word of a load of PC; the ARM7 does not change state by it.
  method LoadPc(cpu: ArmCpu, t: Instr, oldbase: U32, addr: U32) returns (ok: bool, pc: U32)
    requires cpu.Valid() && t.Valid()
    modifies cpu
    ensures cpu.Valid() && cpu.mem == old(cpu.mem) && ok == (cpu.num == 1 || cpu.readable(addr))
    ensures ok ==> pc == LoadedPc(cpu.num, Read(cpu.mem, addr))
    ensures ok ==> cpu.regs == old(cpu.regs) && cpu.cpsr == old(cpu.cpsr) && cpu.spsr == old(cpu.spsr)
    ensures !ok ==> LoadAborted(cpu, t, old(cpu.regs), oldbase)
  {
    hide BaseRestored, ViewsBut, View, Read, Plus;
    var oldmode := cpu.cpsr.mode;
    ghost var loaded, link := cpu.regs, Plus(cpu.regs.r[15], if cpu.cpsr.thumb then 4 else 0);
    ok, pc := DataRead32(cpu, addr);
    if !ok {
      AbortLoad(cpu, t, oldbase, oldmode, loaded, link);
      return;
    }
    pc := LoadedPc(cpu.num, pc);
  }

  function LoadedPc(num: nat, word: U32): U32 { if num == 1 then word / 2 * 2 else word }

  // The writeback rules: a listed base is overwritten only on the ARM9, if it is alone or not last.
  method WriteBack(cpu: ArmCpu, t: Instr, oldbase: U32)
    requires cpu.Valid() && t.Valid()
    modifies cpu`regs
    ensures cpu.Valid() && cpu.regs == WrittenBack(old(cpu.regs), cpu.num, t, oldbase)
  {
    hide Instr.Writeback;
    if t.w {
      if t.rn in t.list {
        if cpu.num == 0 {
          var others, above := exists i :: i in t.list && i != t.rn, exists i :: i in t.list && i > t.rn;
          if !others || above {
            cpu.regs := cpu.regs.(r := cpu.regs.r[t.rn := t.Writeback(oldbase)]);
          }
        }
      } else {
        cpu.regs := cpu.regs.(r := cpu.regs.r[t.rn := t.Writeback(oldbase)]);
      }
    }
  }

  // The registers of a load that ends with PC, before the branch, and where it branches to.
  function BeforeBranch(regs: Registers, mode: Mode, num: nat, mem: Words, t: Instr): (s: Registers)
    requires regs.Valid() && t.Valid()
    ensures s.Valid()
  {
    WrittenBack(LoadedBy(regs, mode, mem, t, |t.list| - 1), num, t, regs.r[t.rn])
  }

  function BranchTarget(regs: Registers, num: nat, mem: Words, t: Instr): U32
    requires regs.Valid() && t.Valid()
  {
    LoadedPc(num, Read(mem, t.Address(regs.r[t.rn], |t.list| - 1)))
  }

  // A completed load of PC: a branch from the loaded and written back registers to the word loaded
  // last, in the state that the saved PSR or, on the ARM9, the word's bit 0 asks for.
  twostate predicate Branched(cpu: ArmCpu, t: Instr)
    requires old(cpu.Valid()) && cpu.Valid() && t.Valid()
    reads cpu
  {
    hide BeforeBranch, BranchTarget;
    var was, pc := old(cpu.cpsr), BranchTarget(old(cpu.regs), cpu.num, cpu.mem, t);
    var loaded := BeforeBranch(old(cpu.regs), was.mode, cpu.num, cpu.mem, t);
    var landed := ArmCpu.Landed(pc, t.s, was, old(cpu.spsr));
    if cpu.Permits(landed.mode, pc) then cpu.Arrived(loaded, was.mode, pc, landed) && cpu.spsr == old(cpu.spsr)
    else cpu.Refused(loaded, was.mode, old(cpu.spsr), pc, landed)
  }
}
