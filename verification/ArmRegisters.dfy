/**
  The ARM's banked registers (src/ARM.cpp; user-bank access in src/ARMInterpreter_LoadStore.cpp).

  The emulator keeps one file of sixteen current registers and swaps banked ones in and out at
  each mode switch. What a register holds as seen from a given mode, its view, must not change
  by a switch.
*/
module ArmRegisters {
  import opened Bits

  type Mode = m: nat | m < 0x20

  const USER: Mode := 0x10
  const FIQ: Mode := 0x11
  const IRQ: Mode := 0x12
  const SVC: Mode := 0x13
  const ABT: Mode := 0x17
  const UND: Mode := 0x1B

  datatype Psr = Psr(mode: Mode, thumb: bool, fiqMask: bool, irqMask: bool, flags: nat)

  // R, and the banks R_FIQ, R_IRQ, R_SVC, R_ABT and R_UND without their saved PSRs.
  datatype Registers = Registers(r: seq<U32>, fiq: seq<U32>, irq: seq<U32>, svc: seq<U32>, abt: seq<U32>, und: seq<U32>) {
    predicate Valid() {
      |r| == 16 && |fiq| == 7 && |irq| == 2 && |svc| == 2 && |abt| == 2 && |und| == 2
    }
  }

  // -------- views --------

  // Where a register of a mode belongs; modes without a bank of their own share the user's.
  datatype Bank = UserBank | FiqBank | IrqBank | SvcBank | AbtBank | UndBank

  function BankOf(mode: Mode, reg: nat): Bank {
    if mode == FIQ && 8 <= reg < 15 then FiqBank
    else if !(13 <= reg < 15) then UserBank
    else if mode == IRQ then IrqBank
    else if mode == SVC then SvcBank
    else if mode == ABT then AbtBank
    else if mode == UND then UndBank
    else UserBank
  }

  // The place of a register in the saved bank.
  function Saved(regs: Registers, bank: Bank, reg: nat): U32
    requires regs.Valid() && bank != UserBank && (if bank == FiqBank then 8 else 13) <= reg < 15
  {
    if bank == FiqBank then regs.fiq[reg - 8]
    else if bank == IrqBank then regs.irq[reg - 13]
    else if bank == SvcBank then regs.svc[reg - 13]
    else if bank == AbtBank then regs.abt[reg - 13]
    else regs.und[reg - 13]
  }

  /** The register as seen from a mode, while the registers of mode `current` are swapped in. */
  function View(regs: Registers, current: Mode, mode: Mode, reg: nat): U32
    requires regs.Valid() && reg < 16
  {
    var here, there := BankOf(current, reg), BankOf(mode, reg);
    if here == there then regs.r[reg]
    else if there == UserBank then Saved(regs, here, reg)
    else Saved(regs, there, reg)
  }

  // All registers look the same from all modes.
  ghost predicate SameViews(before: Registers, current: Mode, after: Registers, current': Mode)
    requires before.Valid() && after.Valid()
  {
    forall mode: Mode, reg: nat | reg < 16 :: View(after, current', mode, reg) == View(before, current, mode, reg)
  }

  // The same, but for one register of one bank, which has a new value.
  ghost predicate ViewsBut(before: Registers, current: Mode, after: Registers, current': Mode, bank: Bank, reg: nat, value: U32)
    requires before.Valid() && after.Valid()
  {
    forall mode: Mode, x: nat | x < 15 ::
      View(after, current', mode, x) == if x == reg && BankOf(mode, x) == bank then value else View(before, current, mode, x)
  }

  // -------- swapping --------

  // Registers first.. with a bank: each takes the other's values.
  function Exchanged(r: seq<U32>, bank: seq<U32>, first: nat): (seq<U32>, seq<U32>)
    requires first + |bank| <= |r|
  {
    (r[..first] + bank + r[first + |bank|..], r[first..first + |bank|])
  }

  method Exchange(r: seq<U32>, bank: seq<U32>, first: nat) returns (r': seq<U32>, bank': seq<U32>)
    requires first + |bank| <= |r|
    ensures (r', bank') == Exchanged(r, bank, first)
  {
    r', bank' := r, bank;
    for k := 0 to |bank|
      invariant |r'| == |r| && |bank'| == |bank|
      invariant forall i | 0 <= i < |r| :: r'[i] == if first <= i < first + k then bank[i - first] else r[i]
      invariant forall i | 0 <= i < |bank| :: bank'[i] == if i < k then r[first + i] else bank[i]
    {
      r', bank' := r'[first + k := bank'[k]], bank'[k := r'[first + k]];
    }
    assert r' == r[..first] + bank + r[first + |bank|..] && bank' == r[first..first + |bank|];
  }

  // The registers after those of a mode are swapped in or out.
  function Swapped(regs: Registers, mode: Mode): (s: Registers)
    requires regs.Valid()
    ensures s.Valid()
  {
    if mode == FIQ then var (r, b) := Exchanged(regs.r, regs.fiq, 8); regs.(r := r, fiq := b)
    else if mode == IRQ then var (r, b) := Exchanged(regs.r, regs.irq, 13); regs.(r := r, irq := b)
    else if mode == SVC then var (r, b) := Exchanged(regs.r, regs.svc, 13); regs.(r := r, svc := b)
    else if mode == ABT then var (r, b) := Exchanged(regs.r, regs.abt, 13); regs.(r := r, abt := b)
    else if mode == UND then var (r, b) := Exchanged(regs.r, regs.und, 13); regs.(r := r, und := b)
    else regs
  }

  function Switched(regs: Registers, from: Mode, to: Mode): (s: Registers)
    requires regs.Valid()
    ensures s.Valid()
  {
    if from == to then regs else Swapped(Swapped(regs, from), to)
  }

  lemma SwapOutKeepsViews(regs: Registers, mode: Mode)
    requires regs.Valid()
    ensures SameViews(regs, mode, Swapped(regs, mode), USER)
  {
    forall m: Mode, reg: nat | reg < 16 ensures View(Swapped(regs, mode), USER, m, reg) == View(regs, mode, m, reg) {
    }
  }

  lemma SwapInKeepsViews(regs: Registers, mode: Mode)
    requires regs.Valid()
    ensures SameViews(regs, USER, Swapped(regs, mode), mode)
  {
    forall m: Mode, reg: nat | reg < 16 ensures View(Swapped(regs, mode), mode, m, reg) == View(regs, USER, m, reg) {
    }
  }

  /** A mode switch changes no register as seen from any mode. */
  lemma SwitchKeepsViews(regs: Registers, from: Mode, to: Mode)
    requires regs.Valid()
    ensures SameViews(regs, from, Switched(regs, from, to), to)
  {
    hide Swapped, View;
    if from != to {
      SwapOutKeepsViews(regs, from);
      SwapInKeepsViews(Swapped(regs, from), to);
    }
  }

  // Switching there and back is no change at all.
  lemma SwitchBack(regs: Registers, from: Mode, to: Mode)
    requires regs.Valid()
    ensures Switched(Switched(regs, from, to), to, from) == regs
  {
    SwapTwice(Swapped(regs, from), to);
    SwapTwice(regs, from);
  }

  lemma SwapTwice(regs: Registers, mode: Mode)
    requires regs.Valid()
    ensures Swapped(Swapped(regs, mode), mode) == regs
  {
  }

  // Writing a current register changes the view of its bank only.
  lemma WriteChangesView(regs: Registers, current: Mode, reg: nat, value: U32)
    requires regs.Valid() && reg < 15
    ensures ViewsBut(regs, current, regs.(r := regs.r[reg := value]), current, BankOf(current, reg), reg, value)
  {
  }

  // -------- branch targets --------

  // A target with bit 0 set as the state asks for.
  function Aligned(addr: U32, thumb: bool): U32 { if thumb then addr / 2 * 2 + 1 else addr / 2 * 2 }

  // PC behind a branch: one instruction ahead of the pipeline's head.
  function Pc(addr: U32, thumb: bool): U32 { if thumb then Plus(addr / 2 * 2, 2) else Plus(addr / 4 * 4, 4) }

  lemma TargetPc(addr: U32, thumb: bool)
    ensures Aligned(addr, thumb) % 2 == (if thumb then 1 else 0) && Pc(Aligned(addr, thumb), thumb) == Pc(addr, thumb)
  {
    var a := Aligned(addr, thumb);
    assert a / 2 == addr / 2;
    assert a / 4 == a / 2 / 2 && addr / 4 == addr / 2 / 2;
  }

  // -------- the processor --------

  class ArmCpu {
    // 0 is the ARM9, 1 the ARM7.
    const num: nat
    const exceptionBase: U32

    var regs: Registers
    var cpsr: Psr
    var spsr: map<Bank, Psr>
    var userMap: bool

    // The emulator has given up.
    var stopped: bool

    // What the protection unit of the ARM9 allows: data accesses by address, and code by permission
    // map, the user's or the privileged one, and page.
    var mem: map<nat, U32>
    const readable: U32 -> bool
    const writable: U32 -> bool
    const executable: (bool, nat) -> bool

    ghost predicate Valid()
      reads this`regs, this`spsr, this`userMap, this`cpsr
    {
      && regs.Valid() && num < 2 && exceptionBase in {0, 0xFFFF_0000}
      && spsr.Keys == {FiqBank, IrqBank, SvcBank, AbtBank, UndBank}
      && (num == 0 ==> userMap == (cpsr.mode == USER))
    }

    // Whether an address may be executed in a mode.
    predicate Permits(mode: Mode, addr: U32) { num == 1 || executable(mode == USER, addr / 0x1000) }

    // Whether an exception finds its code: all vectors are in one page.
    predicate VectorsExecutable() { num == 1 || executable(false, exceptionBase / 0x1000) }

    // Swaps the registers of one mode, bank by bank.
    method SwapBank(mode: Mode)
      requires regs.Valid()
      modifies this`regs
      ensures regs == Swapped(old(regs), mode)
    {
      hide Exchanged;
      if mode == FIQ {
        var r, b := Exchange(regs.r, regs.fiq, 8);
        regs := regs.(r := r, fiq := b);
      } else if mode == IRQ {
        var r, b := Exchange(regs.r, regs.irq, 13);
        regs := regs.(r := r, irq := b);
      } else if mode == SVC {
        var r, b := Exchange(regs.r, regs.svc, 13);
        regs := regs.(r := r, svc := b);
      } else if mode == ABT {
        var r, b := Exchange(regs.r, regs.abt, 13);
        regs := regs.(r := r, abt := b);
      } else if mode == UND {
        var r, b := Exchange(regs.r, regs.und, 13);
        regs := regs.(r := r, und := b);
      }
    }

    /** A mode switch; a phony one leaves the permission map alone. */
    method UpdateMode(oldmode: Mode, newmode: Mode, phony: bool)
      requires regs.Valid()
      modifies this`regs, this`userMap
      ensures regs == Switched(old(regs), oldmode, newmode) && SameViews(old(regs), oldmode, regs, newmode)
      ensures userMap == if oldmode == newmode || phony || num != 0 then old(userMap) else newmode == USER
    {
      hide Swapped, View;
      SwitchKeepsViews(regs, oldmode, newmode);
      if oldmode == newmode {
        return;
      }
      SwapBank(oldmode);
      SwapBank(newmode);
      if !phony && num == 0 {
        userMap := newmode == USER;
      }
    }

    // The branch itself, to a target that may be executed: PC is one instruction ahead of the
    // pipeline's head, and bit 0 selects Thumb.
    method Branch(addr: U32)
      requires Valid()
      modifies this`regs, this`cpsr
      ensures Valid() && cpsr == old(cpsr).(thumb := addr % 2 == 1)
      ensures regs == old(regs).(r := old(regs).r[15 := Pc(addr, addr % 2 == 1)])
    {
      if addr % 2 == 1 {
        assert addr - 1 == addr / 2 * 2;
        regs := regs.(r := regs.r[15 := Plus(addr - 1, 2)]);
        cpsr := cpsr.(thumb := true);
      } else {
        regs := regs.(r := regs.r[15 := Plus(addr / 4 * 4, 4)]);
        cpsr := cpsr.(thumb := false);
      }
    }

    // The bank whose saved PSR a mode returns to.
    static function PsrBank(mode: Mode): Bank {
      if mode == FIQ then FiqBank
      else if mode == IRQ then IrqBank
      else if mode == SVC then SvcBank
      else if 0x14 <= mode <= 0x17 then AbtBank
      else if 0x18 <= mode <= 0x1B then UndBank
      else UserBank
    }

    // What the saved PSR of a mode, if it has one, makes of the status; bit 4 of the mode is always set.
    static function Returned(psr: Psr, saved: map<Bank, Psr>): Psr {
      var bank := PsrBank(psr.mode);
      var next := if bank in saved then saved[bank] else psr;
      next.(mode := if next.mode < 0x10 then next.mode + 0x10 else next.mode)
    }

    /** Returns to the saved PSR. */
    method RestoreCPSR()
      requires Valid()
      modifies this`regs, this`cpsr, this`userMap
      ensures Valid() && SameViews(old(regs), old(cpsr.mode), regs, cpsr.mode) && cpsr.mode >= 0x10
      ensures cpsr == Returned(old(cpsr), spsr)
    {
      hide View, Switched;
      var oldcpsr := cpsr;
      var bank := PsrBank(cpsr.mode);
      if bank != UserBank {
        cpsr := spsr[bank];
      }
      if cpsr.mode < 0x10 {
        cpsr := cpsr.(mode := cpsr.mode + 0x10);
      }
      UpdateMode(oldcpsr.mode, cpsr.mode, false);
    }

    // -------- mode entry --------

    // What an exception does to the registers: only the entered mode's link register changes,
    // and the old status is saved.
    ghost predicate EnteredFrom(before: Registers, psr: Psr, saved: map<Bank, Psr>, bank: Bank, mode: Mode, link: U32)
      requires before.Valid() && regs.Valid()
      reads this`regs, this`spsr, this`cpsr
    {
      && ViewsBut(before, psr.mode, regs, mode, bank, 14, link)
      && spsr == saved[bank := psr] && cpsr == ExceptionPsr(psr, mode)
    }

    static function ExceptionPsr(psr: Psr, mode: Mode): Psr { Psr(mode, false, psr.fiqMask, true, psr.flags) }

    twostate predicate Entered(bank: Bank, mode: Mode, link: U32)
      requires old(Valid()) && Valid()
      reads this
    {
      EnteredFrom(old(regs), old(cpsr), old(spsr), bank, mode, link)
    }

    // Switches to an exception mode.
    method SwitchTo(mode: Mode)
      requires Valid() && mode != USER
      modifies this`regs, this`cpsr, this`userMap
      ensures Valid() && cpsr == ExceptionPsr(old(cpsr), mode) && SameViews(old(regs), old(cpsr.mode), regs, mode)
    {
      hide View, Switched;
      var oldcpsr := cpsr;
      cpsr := cpsr.(mode := mode, thumb := false, irqMask := true);
      UpdateMode(oldcpsr.mode, cpsr.mode, false);
    }

    // Saves the status, links back and branches to a vector.
    method LinkTo(bank: Bank, psr: Psr, link: U32, vector: U32)
      requires Valid() && bank != UserBank && BankOf(cpsr.mode, 14) == bank && vector % 4 == 0 && vector <= 0x1C
      modifies this`regs, this`cpsr, this`spsr
      ensures Valid() && spsr == old(spsr)[bank := psr] && cpsr == old(cpsr).(thumb := false)
      ensures ViewsBut(old(regs), cpsr.mode, regs, cpsr.mode, bank, 14, link)
      ensures regs.r[15] == Pc(Plus(exceptionBase, vector), false)
    {
      hide View, ViewsBut, Pc;
      ghost var before, mode := regs, cpsr.mode;
      spsr := spsr[bank := psr];
      WriteChangesView(regs, mode, 14, link);
      regs := regs.(r := regs.r[14 := link]);
      ghost var linked := regs;
      Branch(Plus(exceptionBase, vector));
      PcKeepsViews(linked, regs, mode);
      PcAfterLink(before, linked, regs, mode, bank, link);
    }

    /** The emulator stops if the exception's code may not be executed either. */
    method PrefetchAbort()
      requires Valid()
      modifies this`regs, this`cpsr, this`spsr, this`userMap, this`stopped
      ensures Valid() && stopped == (old(stopped) || !VectorsExecutable()) && cpsr == ExceptionPsr(old(cpsr), ABT)
      ensures if VectorsExecutable()
        then Entered(AbtBank, ABT, Plus(old(regs.r[15]), if old(cpsr.thumb) then 2 else 0))
          && regs.r[15] == Pc(Plus(exceptionBase, 0x0C), false)
        else spsr == old(spsr) && SameViews(old(regs), old(cpsr.mode), regs, ABT)
    {
      hide View, Switched, ViewsBut, Pc;
      var oldcpsr, link := cpsr, Plus(regs.r[15], if cpsr.thumb then 2 else 0);
      ghost var before := regs;
      SwitchTo(ABT);
      if num == 0 && !executable(userMap, exceptionBase / 0x1000) {
        stopped := true;
        return;
      }
      ghost var switched := regs;
      LinkTo(AbtBank, oldcpsr, link, 0x0C);
      EntryViews(before, oldcpsr.mode, switched, regs, ABT, AbtBank, link);
    }

    // An exception whose code may not be executed ends in a prefetch abort, and that in a stop.
    method EnterMode(mode: Mode, bank: Bank, link: U32, vector: U32)
      requires Valid() && bank != UserBank && mode != USER && BankOf(mode, 14) == bank && vector % 4 == 0 && vector <= 0x1C
      modifies this`regs, this`cpsr, this`spsr, this`userMap, this`stopped
      ensures Valid() && stopped == (old(stopped) || !VectorsExecutable())
      ensures spsr == old(spsr)[bank := old(cpsr)]
      ensures cpsr == ExceptionPsr(old(cpsr), if VectorsExecutable() then mode else ABT)
      ensures ViewsBut(old(regs), old(cpsr.mode), regs, cpsr.mode, bank, 14, link)
      ensures VectorsExecutable() ==> regs.r[15] == Pc(Plus(exceptionBase, vector), false)
    {
      hide View, Switched, ViewsBut, Pc;
      var oldcpsr := cpsr;
      ghost var before := regs;
      SwitchTo(mode);
      ghost var switched := regs;
      LinkTo(bank, oldcpsr, link, vector);
      EntryViews(before, oldcpsr.mode, switched, regs, mode, bank, link);
      VectorPage(vector);
      if num == 0 && !executable(userMap, Plus(exceptionBase, vector) / 0x1000) {
        ghost var linked := regs;
        PrefetchAbort();
        StopViews(before, oldcpsr.mode, linked, mode, regs, ABT, bank, link);
      }
    }

    lemma VectorPage(vector: U32)
      requires Valid() && vector <= 0x1C
      ensures Plus(exceptionBase, vector) / 0x1000 == exceptionBase / 0x1000
    {
    }

    method TriggerIRQ()
      requires Valid()
      modifies this`regs, this`cpsr, this`spsr, this`userMap, this`stopped
      ensures Valid()
      ensures old(cpsr.irqMask) ==> regs == old(regs) && cpsr == old(cpsr) && spsr == old(spsr) && stopped == old(stopped)
      ensures !old(cpsr.irqMask) ==> stopped == (old(stopped) || !VectorsExecutable())
      ensures !old(cpsr.irqMask) && VectorsExecutable() ==>
        Entered(IrqBank, IRQ, Plus(old(regs.r[15]), if old(cpsr.thumb) then 2 else 0))
    {
      hide View, ViewsBut;
      if cpsr.irqMask {
        return;
      }
      EnterMode(IRQ, IrqBank, Plus(regs.r[15], if cpsr.thumb then 2 else 0), 0x18);
    }

    method DataAbort()
      requires Valid()
      modifies this`regs, this`cpsr, this`spsr, this`userMap, this`stopped
      ensures Valid() && Entered(AbtBank, ABT, Plus(old(regs.r[15]), if old(cpsr.thumb) then 4 else 0))
      ensures stopped == (old(stopped) || !VectorsExecutable())
    {
      hide View, ViewsBut;
      EnterMode(ABT, AbtBank, Plus(regs.r[15], if cpsr.thumb then 4 else 0), 0x10);
    }

    // -------- branches --------

    // The status and the target of a branch, once the saved PSR has been returned to.
    static function Target(addr: U32, restore: bool, psr: Psr): U32 { if restore then Aligned(addr, psr.thumb) else addr }

    static function Landed(addr: U32, restore: bool, psr: Psr, saved: map<Bank, Psr>): Psr {
      var next := if restore then Returned(psr, saved) else psr;
      next.(thumb := Target(addr, restore, next) % 2 == 1)
    }

    // After a branch that went through, PC follows the target and nothing else changes.
    ghost predicate Arrived(before: Registers, mode: Mode, addr: U32, landed: Psr)
      requires before.Valid() && regs.Valid()
      reads this`regs, this`cpsr
    {
      && cpsr == landed && regs.r[15] == Pc(addr, landed.thumb)
      && forall m: Mode, x: nat | x < 15 :: View(regs, landed.mode, m, x) == View(before, mode, m, x)
    }

    // After a branch to where code may not be executed, the exception is entered from the target.
    ghost predicate Refused(before: Registers, mode: Mode, saved: map<Bank, Psr>, addr: U32, landed: Psr)
      requires before.Valid() && regs.Valid()
      reads this`regs, this`cpsr, this`spsr
    {
      && cpsr == ExceptionPsr(landed, ABT)
      && if VectorsExecutable()
        then spsr == saved[AbtBank := landed] && regs.r[15] == Pc(Plus(exceptionBase, 0x0C), false)
          && ViewsBut(before, mode, regs, ABT, AbtBank, 14, Plus(Pc(addr, landed.thumb), if landed.thumb then 2 else 0))
        else spsr == saved && forall m: Mode, x: nat | x < 15 :: View(regs, ABT, m, x) == View(before, mode, m, x)
    }

    // The branch itself.
    method Land(addr: U32, restore: bool)
      requires Valid()
      modifies this`regs, this`cpsr, this`userMap
      ensures Valid() && Arrived(old(regs), old(cpsr.mode), addr, Landed(addr, restore, old(cpsr), spsr))
    {
      hide View, ViewsBut, Switched, Aligned, Pc, Returned;
      var target := addr;
      if restore {
        RestoreCPSR();
        target := Aligned(addr, cpsr.thumb);
      }
      TargetPc(addr, cpsr.thumb);
      ghost var returned := regs;
      Branch(target);
      PcKeepsViews(returned, regs, cpsr.mode);
    }

    /**
      A branch that may return to the saved PSR, whose state then decides about Thumb. Where the
      target may not be executed, it ends in a prefetch abort.
    */
    method JumpTo(addr: U32, restore: bool)
      requires Valid()
      modifies this`regs, this`cpsr, this`spsr, this`userMap, this`stopped
      ensures Valid()
      ensures var landed := Landed(addr, restore, old(cpsr), old(spsr));
        if Permits(landed.mode, addr)
        then Arrived(old(regs), old(cpsr.mode), addr, landed) && spsr == old(spsr) && stopped == old(stopped)
        else Refused(old(regs), old(cpsr.mode), old(spsr), addr, landed) && stopped == (old(stopped) || !VectorsExecutable())
    {
      hide View, ViewsBut, Switched, Landed, Pc, ExceptionPsr;
      ghost var before, mode := regs, cpsr.mode;
      Land(addr, restore);
      ghost var arrived, landed := regs, cpsr;
      if num == 0 && !executable(userMap, addr / 0x1000) {
        PrefetchAbort();
        if VectorsExecutable() {
          RefusedViews(before, mode, arrived, landed.mode, regs, Plus(arrived.r[15], if landed.thumb then 2 else 0));
        }
      }
    }
  }

  lemma PcKeepsViews(regs: Registers, regs': Registers, mode: Mode)
    requires regs.Valid() && regs'.Valid() && regs' == regs.(r := regs.r[15 := regs'.r[15]])
    ensures forall m: Mode, x: nat | x < 15 :: View(regs', mode, m, x) == View(regs, mode, m, x)
  {
  }

  lemma PcAfterLink(before: Registers, linked: Registers, after: Registers, mode: Mode, bank: Bank, link: U32)
    requires before.Valid() && linked.Valid() && after.Valid() && ViewsBut(before, mode, linked, mode, bank, 14, link)
    requires forall m: Mode, x: nat | x < 15 :: View(after, mode, m, x) == View(linked, mode, m, x)
    ensures ViewsBut(before, mode, after, mode, bank, 14, link)
  {
    hide View;
  }

  lemma EntryViews(before: Registers, from: Mode, switched: Registers, after: Registers, to: Mode, bank: Bank, link: U32)
    requires before.Valid() && switched.Valid() && after.Valid()
    requires SameViews(before, from, switched, to) && ViewsBut(switched, to, after, to, bank, 14, link)
    ensures ViewsBut(before, from, after, to, bank, 14, link)
  {
    hide View;
  }

  lemma StopViews(before: Registers, from: Mode, linked: Registers, mode: Mode, after: Registers, to: Mode, bank: Bank, link: U32)
    requires before.Valid() && linked.Valid() && after.Valid()
    requires ViewsBut(before, from, linked, mode, bank, 14, link) && SameViews(linked, mode, after, to)
    ensures ViewsBut(before, from, after, to, bank, 14, link)
  {
    hide View;
  }

  lemma RefusedViews(before: Registers, from: Mode, arrived: Registers, mode: Mode, after: Registers, link: U32)
    requires before.Valid() && arrived.Valid() && after.Valid() && ViewsBut(arrived, mode, after, ABT, AbtBank, 14, link)
    requires forall m: Mode, x: nat | x < 15 :: View(arrived, mode, m, x) == View(before, from, m, x)
    ensures ViewsBut(before, from, after, ABT, AbtBank, 14, link)
  {
    hide View;
  }
}
