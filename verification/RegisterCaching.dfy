/**
  The block compiler's register allocator (src/ARMJIT_RegisterCache.h).

  Guest registers are cached in a few native registers while a block is compiled. The
  emitted loads and stores act on the machine in the order in which they are emitted, so the
  model performs them at once: `mem` is the guest register file in memory and `native` the
  contents of the native registers. The ghost field `guest` holds the values the guest
  registers should have, and Valid says that the allocator can always produce them.
*/
module RegisterCaching {

  const REGS := 16
  const PC := 15
  const UNMAPPED := -1

  // The masks of one instruction; `conditional` is an ARM condition below 0xE.
  datatype Instr = Instr(srcRegs: set<int>, dstRegs: set<int>, notStrictlyNeeded: set<int>, conditional: bool)
  {
    ghost predicate Valid() {
      && (forall r | r in srcRegs :: 0 <= r < REGS)
      && (forall r | r in dstRegs :: 0 <= r < REGS)
      && notStrictlyNeeded <= srcRegs + dstRegs - {PC}
    }

    // The registers whose old values the instruction can depend on.
    function Inputs(): set<int> { if conditional then srcRegs + dstRegs else srcRegs }

    function Uses(): set<int> { srcRegs - {PC} + dstRegs }

    // The registers that must sit in native registers while the instruction executes.
    function Necessary(pcAllocatable: bool): set<int> {
      (if pcAllocatable then srcRegs else srcRegs - {PC}) + dstRegs - notStrictlyNeeded
    }
  }

  type Regs = s: seq<int> | |s| == REGS witness seq(REGS, _ => 0)

  /** What instruction k does to the guest registers; memory and flags are left implicit. */
  type Meaning = (nat, Regs) -> Regs

  ghost predicate Agree(s: Regs, t: Regs, regs: set<int>) {
    forall r | r in regs && 0 <= r < PC :: s[r] == t[r]
  }

  // `m` changes destination registers only, and reads source registers only. A conditional
  // instruction may also leave a destination as it was.
  ghost predicate Describes(instrs: seq<Instr>, m: Meaning) {
    && (forall k: nat, s: Regs, r | k < |instrs| && 0 <= r < PC && r !in instrs[k].dstRegs :: m(k, s)[r] == s[r])
    && (forall k: nat, s: Regs, t: Regs | k < |instrs| && Agree(s, t, instrs[k].Inputs()) ::
          Agree(m(k, s), m(k, t), instrs[k].dstRegs))
  }

  // The guest registers before instruction k when the block is interpreted.
  ghost function GuestRun(m: Meaning, s: Regs, k: nat): Regs {
    if k == 0 then s else m(k - 1, GuestRun(m, s, k - 1))
  }

  // Registers used by s[k..].
  function NeededFrom(s: seq<Instr>, k: nat): set<int>
    requires k <= |s|
    decreases |s| - k
  {
    if k == |s| then {} else s[k].Uses() + NeededFrom(s, k + 1)
  }

  lemma {:induction false} NeededFromHas(s: seq<Instr>, k: nat, r: int)
    requires k <= |s|
    ensures r in NeededFrom(s, k) <==> exists j | k <= j < |s| :: r in s[j].Uses()
    decreases |s| - k
  {
    if k < |s| {
      NeededFromHas(s, k + 1, r);
    }
  }

  function UsedBefore(s: seq<Instr>, k: nat): set<int>
    requires k <= |s|
  {
    if k == 0 then {} else UsedBefore(s, k - 1) + s[k - 1].Uses()
  }

  lemma {:induction false} UsedAndNeeded(s: seq<Instr>, k: nat)
    requires k <= |s|
    ensures UsedBefore(s, k) + NeededFrom(s, k) == NeededFrom(s, 0)
  {
    if k > 0 {
      UsedAndNeeded(s, k - 1);
    }
  }

  // `last` gives each register used by s[..n] the last instruction that uses it.
  ghost predicate IsLastUse(s: seq<Instr>, last: map<int, nat>, n: nat)
    requires n <= |s|
  {
    forall j, r | 0 <= j < n && r in s[j].Uses() :: r in last && j <= last[r] < n && r in s[last[r]].Uses()
  }

  // A register leaves the needed set exactly at its last use.
  lemma LastUseLeaves(s: seq<Instr>, last: map<int, nat>, j: nat)
    requires j < |s| && IsLastUse(s, last, |s|)
    ensures forall r | r in s[j].Uses() :: r in last
    ensures NeededFrom(s, j + 1) == NeededFrom(s, j) - set r | r in s[j].Uses() && last[r] == j
  {
    forall r | r in s[j].Uses() ensures r in last && (r in NeededFrom(s, j + 1) <==> last[r] != j) {
      NeededFromHas(s, j + 1, r);
      assert r in s[last[r]].Uses();
    }
  }

  // How many instructions of s[i..j] must have register r at hand.
  function Ranking(s: seq<Instr>, i: nat, j: nat, r: int): nat
    requires i <= j <= |s|
  {
    if i == j then 0
    else Ranking(s, i, j - 1, r) + if r in s[j - 1].Uses() - s[j - 1].notStrictlyNeeded then 1 else 0
  }

  lemma {:induction false} RankingBound(s: seq<Instr>, i: nat, j: nat, r: int)
    requires i <= j <= |s|
    ensures Ranking(s, i, j, r) <= j - i
  {
    if i < j {
      RankingBound(s, i, j - 1, r);
    }
  }

  // The first native register in allocation order that is free, if any.
  function FirstFree(order: seq<nat>, used: set<int>): int {
    if order == [] then UNMAPPED
    else if order[0] !in used then order[0]
    else FirstFree(order[1..], used)
  }

  lemma {:induction false} FirstFreeAfter(order: seq<nat>, used: set<int>, i: nat)
    requires i <= |order| && forall j | 0 <= j < i :: order[j] in used
    ensures FirstFree(order, used) == FirstFree(order[i..], used)
  {
    if i > 0 {
      FirstFreeAfter(order[1..], used, i - 1);
      assert order[1..][i - 1..] == order[i..];
    }
  }

  // The members of a register set that a loop over it has visited before reaching n.
  function Below(regs: set<int>, n: int): set<int> {
    set r | r in regs && r < n
  }

  lemma BelowSteps(regs: set<int>, n: int)
    ensures Below(regs, n + 1) == if n in regs then Below(regs, n) + {n} else Below(regs, n)
    ensures n in regs ==> n !in Below(regs, n)
    ensures Below(regs, n) <= regs
  {
  }

  lemma BelowLeavesRoom(start: set<int>, regs: set<int>, n: int)
    requires start !! regs && n in regs
    ensures |start + Below(regs, n)| < |start| + |regs|
  {
    var visited := start + Below(regs, n);
    SubsetCard(visited + {n}, start + regs);
    assert |start + regs| == |start| + |regs|;
    assert n !in visited;
  }

  lemma BelowAll(regs: set<int>)
    requires forall r | r in regs :: 0 <= r < REGS
    ensures Below(regs, 0) == {} && Below(regs, REGS) == regs
  {
  }

  lemma EmptyDifference<T>(a: set<T>, b: set<T>)
    ensures a - b == {} <==> a <= b
  {
    if a - b == {} {
      forall x | x in a ensures x in b {
        assert x in b || x in a - b;
      }
    }
  }

  lemma {:induction false} SubsetCard<T>(a: set<T>, b: set<T>)
    requires a <= b
    ensures |a| <= |b|
    ensures |a| == |b| ==> a == b
  {
    if a != {} {
      var x :| x in a;
      SubsetCard(a - {x}, b - {x});
    }
  }

  // Loaded registers are mapped to different native registers, and those are the ones in use.
  ghost predicate MapsOk(natives: set<int>, mapping: seq<int>, used: set<int>, loaded: set<int>, dirty: set<int>, native: map<int, int>) {
    && |mapping| == REGS
    && (forall r :: r in loaded <==> 0 <= r < REGS && mapping[r] != UNMAPPED)
    && (forall r | r in loaded :: mapping[r] in used && mapping[r] in native)
    && (forall a, b | a in loaded && b in loaded && mapping[a] == mapping[b] :: a == b)
    && used <= natives
    && |used| == |loaded|
    && dirty <= loaded - {PC}
  }

  lemma MapOneMore(natives: set<int>, mapping: seq<int>, used: set<int>, loaded: set<int>, dirty: set<int>, native: map<int, int>, reg: int, n: int)
    requires MapsOk(natives, mapping, used, loaded, dirty, native) && 0 <= reg < REGS && reg !in loaded
    requires n in natives - used && n in native && n != UNMAPPED
    ensures MapsOk(natives, mapping[reg := n], used + {n}, loaded + {reg}, dirty, native) && |mapping| == REGS
  {
  }

  class RegisterCache {
    const instrs: seq<Instr>
    const allocOrder: seq<nat>
    const pcAllocatableAsSrc: bool

    var mapping: seq<int>
    var nativeRegsUsed: set<int>
    var loadedRegs: set<int>
    var dirtyRegs: set<int>

    var literalsLoaded: set<int>
    var literalValues: map<int, int>

    var suffixNeeded: set<int>
    var suffixCursor: int
    var suffixLastUse: map<int, nat>

    // the machine the emitted code runs on
    var mem: Regs
    var native: map<int, int>

    ghost var guest: Regs

    ghost predicate ValidBlock() {
      && |instrs| <= 256
      && (forall k | 0 <= k < |instrs| :: instrs[k].Valid())
      && (forall k | 0 <= k < |instrs| :: |instrs[k].Necessary(pcAllocatableAsSrc)| <= |allocOrder|)
      && (forall i, j | 0 <= i < j < |allocOrder| :: allocOrder[i] != allocOrder[j])
    }

    ghost function Natives(): set<int> {
      set n | n in allocOrder
    }

    ghost predicate ValidMaps()
      reads this`mapping, this`nativeRegsUsed, this`loadedRegs, this`dirtyRegs, this`native, this`literalsLoaded, this`literalValues
    {
      && MapsOk(Natives(), mapping, nativeRegsUsed, loadedRegs, dirtyRegs, native)
      && literalsLoaded <= literalValues.Keys
    }

    ghost predicate ValidSuffix()
      reads this`suffixCursor, this`suffixNeeded, this`suffixLastUse
    {
      suffixCursor >= 0 ==>
        && suffixCursor <= |instrs|
        && suffixNeeded == NeededFrom(instrs, suffixCursor)
        && IsLastUse(instrs, suffixLastUse, |instrs|)
    }

    // Where instructions find the value of guest register r.
    ghost function View(r: int): int
      reads this`mapping, this`nativeRegsUsed, this`loadedRegs, this`dirtyRegs, this`native, this`literalsLoaded, this`literalValues, this`mem
      requires ValidMaps() && 0 <= r < REGS
    {
      if r in loadedRegs then native[mapping[r]] else mem[r]
    }

    /**
      Every register outside `pending` has its guest value, in memory too unless it is dirty.
      `pending` are the registers reserved for a result that is about to be written.
    */
    ghost predicate Holds(pending: set<int>)
      reads this`mapping, this`nativeRegsUsed, this`loadedRegs, this`dirtyRegs, this`native, this`literalsLoaded, this`literalValues, this`mem, this`guest
      requires ValidMaps()
    {
      && (forall r | 0 <= r < PC && r !in pending :: View(r) == guest[r])
      && (forall r | 0 <= r < PC && r !in dirtyRegs :: mem[r] == guest[r])
      && (forall r | r in literalsLoaded && 0 <= r < PC :: literalValues[r] == guest[r])
    }

    ghost predicate Valid()
      reads this
    {
      ValidBlock() && ValidMaps() && ValidSuffix() && Holds({})
    }

    constructor (instrs: seq<Instr>, allocOrder: seq<nat>, pcAllocatableAsSrc: bool, regs: Regs)
      requires |instrs| <= 256
      requires forall k | 0 <= k < |instrs| :: instrs[k].Valid()
      requires forall k | 0 <= k < |instrs| :: |instrs[k].Necessary(pcAllocatableAsSrc)| <= |allocOrder|
      requires forall i, j | 0 <= i < j < |allocOrder| :: allocOrder[i] != allocOrder[j]
      ensures Valid() && guest == mem == regs && suffixCursor == -1
      ensures this.instrs == instrs && this.allocOrder == allocOrder && this.pcAllocatableAsSrc == pcAllocatableAsSrc
    {
      this.instrs, this.allocOrder, this.pcAllocatableAsSrc := instrs, allocOrder, pcAllocatableAsSrc;
      mapping := seq(REGS, _ => UNMAPPED);
      nativeRegsUsed, loadedRegs, dirtyRegs, literalsLoaded := {}, {}, {}, {};
      literalValues, suffixNeeded, suffixCursor, suffixLastUse := map[], {}, -1, map[];
      mem, native, guest := regs, map[], regs;
    }

    // -------- one register --------

    method UnloadRegister(reg: int, ghost pending: set<int>)
      requires ValidMaps() && Holds(pending) && reg in loadedRegs && reg !in pending
      modifies this`mapping, this`nativeRegsUsed, this`loadedRegs, this`dirtyRegs, this`mem
      ensures ValidMaps() && Holds(pending)
      ensures loadedRegs == old(loadedRegs) - {reg}
      ensures nativeRegsUsed == old(nativeRegsUsed) - {old(mapping[reg])}
    {
      WriteBack(reg, pending);
      loadedRegs := loadedRegs - {reg};
      nativeRegsUsed := nativeRegsUsed - {mapping[reg]};
      mapping := mapping[reg := UNMAPPED];
    }

    // Makes memory current for a register.
    method WriteBack(reg: int, ghost pending: set<int>)
      requires ValidMaps() && Holds(pending) && reg in loadedRegs && reg !in pending
      modifies this`dirtyRegs, this`mem
      ensures ValidMaps() && Holds(pending) && reg !in dirtyRegs
    {
      if reg in dirtyRegs {
        mem := mem[reg := native[mapping[reg]]];
        dirtyRegs := dirtyRegs - {reg};
      }
    }

    /**
      Takes the first free native register in allocation order. The source aborts the process
      when there is none; `ok` is false in that case and only then.
    */
    method LoadRegister(reg: int, loadValue: bool, ghost pending: set<int>) returns (ok: bool)
      requires ValidMaps() && Holds(pending) && 0 <= reg < REGS && reg !in loadedRegs
      requires !loadValue ==> reg in pending
      modifies this`mapping, this`nativeRegsUsed, this`loadedRegs, this`native
      ensures ok <==> Natives() - old(nativeRegsUsed) != {}
      ensures ok ==> ValidMaps() && Holds(pending)
      ensures ok ==> loadedRegs == old(loadedRegs) + {reg}
      ensures ok ==> mapping == old(mapping)[reg := FirstFree(allocOrder, old(nativeRegsUsed))]
      ensures !ok ==> unchanged(this)
    {
      hide RegisterCache.ValidMaps, RegisterCache.Holds;
      for i := 0 to |allocOrder|
        invariant forall j | 0 <= j < i :: allocOrder[j] in nativeRegsUsed
        invariant unchanged(this)
      {
        var nativeReg := allocOrder[i];
        if nativeReg !in nativeRegsUsed {
          FirstFreeAfter(allocOrder, nativeRegsUsed, i);
          assert nativeReg in Natives() - nativeRegsUsed;
          Allot(reg, nativeReg, loadValue, pending);
          return true;
        }
      }
      return false;
    }

    // Without an emitted load the native register keeps what it happened to hold.
    method EmitLoad(reg: int, nativeReg: nat, loadValue: bool, ghost pending: set<int>)
      requires ValidMaps() && Holds(pending) && 0 <= reg < REGS && nativeReg !in nativeRegsUsed
      modifies this`native
      ensures ValidMaps() && Holds(pending) && nativeReg in native && (loadValue ==> native[nativeReg] == mem[reg])
    {
      native := native[nativeReg := if loadValue then mem[reg] else if nativeReg in native then native[nativeReg] else 0];
    }

    // Maps a register to a free native register.
    method Allot(reg: int, nativeReg: nat, loadValue: bool, ghost pending: set<int>)
      requires ValidMaps() && Holds(pending) && 0 <= reg < REGS && reg !in loadedRegs
      requires (!loadValue ==> reg in pending) && nativeReg in Natives() - nativeRegsUsed
      modifies this`mapping, this`nativeRegsUsed, this`loadedRegs, this`native
      ensures ValidMaps() && Holds(pending)
      ensures loadedRegs == old(loadedRegs) + {reg} && mapping == old(mapping)[reg := nativeReg]
    {
      hide MapsOk;
      EmitLoad(reg, nativeReg, loadValue, pending);
      MapOneMore(Natives(), mapping, nativeRegsUsed, loadedRegs, dirtyRegs, native, reg, nativeReg);
      mapping := mapping[reg := nativeReg];
      nativeRegsUsed := nativeRegsUsed + {nativeReg};
      loadedRegs := loadedRegs + {reg};
    }

    // Native registers are never short while fewer guest registers are loaded than there are.
    lemma FreeRegisterExists()
      requires ValidBlock() && ValidMaps() && |loadedRegs| < |allocOrder|
      ensures Natives() - nativeRegsUsed != {}
    {
      OrderCard(allocOrder, |allocOrder|);
      assert Natives() == set i | 0 <= i < |allocOrder| :: allocOrder[i];
      assert Natives() == nativeRegsUsed + (Natives() - nativeRegsUsed);
    }

    static lemma {:induction false} OrderCard(s: seq<nat>, n: nat)
      requires n <= |s| && forall i, j | 0 <= i < j < |s| :: s[i] != s[j]
      ensures |set i | 0 <= i < n :: s[i]| == n
    {
      var all := set i | 0 <= i < n :: s[i];
      if n > 0 {
        OrderCard(s, n - 1);
        assert all == (set i | 0 <= i < n - 1 :: s[i]) + {s[n - 1]};
      }
    }

    lemma LoadedInRange()
      requires ValidMaps()
      ensures forall r | r in loadedRegs :: 0 <= r < REGS
    {
    }

    // Unloads every register of a set, as the loops over a BitSet do.
    method UnloadRegisters(regs: set<int>)
      requires ValidMaps() && Holds({}) && regs <= loadedRegs
      modifies this`mapping, this`nativeRegsUsed, this`loadedRegs, this`dirtyRegs, this`mem
      ensures ValidMaps() && Holds({})
      ensures loadedRegs == old(loadedRegs) - regs
    {
      hide RegisterCache.ValidMaps, RegisterCache.Holds, RegisterCache.ValidSuffix, RegisterCache.ValidBlock;
      LoadedInRange();
      BelowAll(regs);
      var reg := 0;
      while reg < REGS
        invariant 0 <= reg <= REGS
        invariant ValidMaps() && Holds({})
        invariant loadedRegs == old(loadedRegs) - Below(regs, reg)
      {
        BelowSteps(regs, reg);
        if reg in regs {
          UnloadRegister(reg, {});
        }
        reg := reg + 1;
      }
    }

    // -------- remaining uses --------

    method AddSuffixUses(j: nat)
      requires j < |instrs| && IsLastUse(instrs, suffixLastUse, j)
      modifies this`suffixNeeded, this`suffixLastUse
      ensures IsLastUse(instrs, suffixLastUse, j + 1)
      ensures suffixNeeded == old(suffixNeeded) + instrs[j].Uses()
    {
      var regsNeeded := instrs[j].Uses();
      suffixLastUse := suffixLastUse + map r | r in regsNeeded :: j;
      suffixNeeded := suffixNeeded + regsNeeded;
    }

    method DropSuffixUses(j: nat)
      requires j < |instrs| && IsLastUse(instrs, suffixLastUse, |instrs|)
      requires suffixNeeded == NeededFrom(instrs, j)
      modifies this`suffixNeeded
      ensures suffixNeeded == NeededFrom(instrs, j + 1)
    {
      LastUseLeaves(instrs, suffixLastUse, j);
      suffixNeeded := suffixNeeded - set r | r in instrs[j].Uses() && suffixLastUse[r] == j;
    }

    method BuildSuffix()
      requires suffixCursor < 0
      modifies this`suffixNeeded, this`suffixLastUse, this`suffixCursor
      ensures ValidSuffix() && suffixCursor == 0
    {
      suffixNeeded := {};
      var j := 0;
      while j < |instrs|
        invariant 0 <= j <= |instrs|
        invariant IsLastUse(instrs, suffixLastUse, j)
        invariant suffixNeeded == UsedBefore(instrs, j)
      {
        AddSuffixUses(j);
        j := j + 1;
      }
      UsedAndNeeded(instrs, |instrs|);
      suffixCursor := 0;
    }

    // Brings the mask to the instructions from i on; the first call builds it.
    method AdvanceSuffix(i: nat)
      requires ValidSuffix() && i < |instrs| && suffixCursor <= i
      modifies this`suffixNeeded, this`suffixLastUse, this`suffixCursor
      ensures ValidSuffix() && suffixCursor == i
    {
      if suffixCursor < 0 {
        BuildSuffix();
      }
      var j := suffixCursor;
      ghost var last := suffixLastUse;
      while j < i
        invariant 0 <= j <= i
        invariant suffixLastUse == last && suffixNeeded == NeededFrom(instrs, j)
      {
        DropSuffixUses(j);
        j := j + 1;
      }
      suffixCursor := i;
    }

    // -------- eviction --------

    method RankRegisters(i: nat) returns (ranking: seq<nat>)
      requires i <= |instrs|
      ensures |ranking| == REGS
      ensures forall r | 0 <= r < REGS :: ranking[r] == Ranking(instrs, i, |instrs|, r)
    {
      ranking := seq(REGS, _ => 0);
      for j := i to |instrs|
        invariant |ranking| == REGS
        invariant forall r | 0 <= r < REGS :: ranking[r] == Ranking(instrs, i, j, r)
      {
        var regsNeeded := instrs[j].Uses() - instrs[j].notStrictlyNeeded;
        ranking := seq(REGS, r requires 0 <= r < REGS => if r in regsNeeded then ranking[r] + 1 else ranking[r]);
      }
    }

    // The loaded register with the fewest remaining uses, lowest number first.
    static method PickVictim(loaded: set<int>, necessary: set<int>, ranking: seq<nat>) returns (leastReg: int)
      requires |ranking| == REGS && forall r | 0 <= r < REGS :: ranking[r] < 1000
      requires forall r | r in loaded :: 0 <= r < REGS
      ensures leastReg == -1 <==> loaded <= necessary
      ensures leastReg != -1 ==>
        && leastReg in loaded - necessary
        && forall r | r in loaded - necessary ::
             ranking[leastReg] < ranking[r] || (ranking[leastReg] == ranking[r] && leastReg <= r)
    {
      leastReg := -1;
      var rank := 1000;
      for reg := 0 to REGS
        invariant leastReg == -1 ==> rank == 1000 && forall r | r in loaded - necessary :: reg <= r
        invariant leastReg != -1 ==>
          && leastReg in loaded - necessary && leastReg < reg && rank == ranking[leastReg]
          && forall r | r in loaded - necessary && r < reg ::
               rank < ranking[r] || (rank == ranking[r] && leastReg <= r)
      {
        if reg in loaded && reg !in necessary && ranking[reg] < rank {
          leastReg := reg;
          rank := ranking[reg];
        }
      }
      if leastReg == -1 {
        forall r | r in loaded ensures r in necessary {
          assert r !in loaded - necessary;
        }
      }
    }

    // With more registers loaded and wanted than exist, some loaded one is not wanted now.
    static lemma SplitCard(loaded: set<int>, necessary: set<int>)
      ensures loaded <= necessary ==> |loaded| + |necessary - loaded| == |necessary|
    {
      if loaded <= necessary {
        assert necessary == loaded + (necessary - loaded);
      }
    }

    // Makes room for the registers that instruction i must have.
    method Evict(i: nat, necessaryRegs: set<int>)
      requires ValidBlock() && ValidMaps() && Holds({}) && i < |instrs| && PC !in loadedRegs
      requires |necessaryRegs| <= |allocOrder|
      modifies this`mapping, this`nativeRegsUsed, this`loadedRegs, this`dirtyRegs, this`mem
      ensures ValidMaps() && Holds({})
      ensures loadedRegs <= old(loadedRegs) && old(loadedRegs) * necessaryRegs <= loadedRegs
      ensures |loadedRegs| + |necessaryRegs - loadedRegs| <= |allocOrder|
    {
      hide RegisterCache.ValidMaps, RegisterCache.Holds, RegisterCache.ValidSuffix;
      var neededCount := |necessaryRegs - loadedRegs|;
      if |loadedRegs| + neededCount > |allocOrder| {
        var ranking := RankRegisters(i);
        forall r | 0 <= r < REGS ensures ranking[r] < 1000 {
          RankingBound(instrs, i, |instrs|, r);
        }
        while |loadedRegs| + neededCount > |allocOrder|
          invariant ValidMaps() && Holds({})
          invariant loadedRegs <= old(loadedRegs) && old(loadedRegs) * necessaryRegs <= loadedRegs
          invariant necessaryRegs - loadedRegs == old(necessaryRegs - loadedRegs)
          decreases |loadedRegs|
        {
          SplitCard(loadedRegs, necessaryRegs);
          LoadedInRange();
          var leastReg := PickVictim(loadedRegs, necessaryRegs, ranking);
          UnloadRegister(leastReg, {});
        }
      }
    }

    // -------- one instruction --------

    // One register of a list of which at least this one is still to be loaded.
    method LoadOne(reg: int, loadValue: bool, ghost pending: set<int>)
      requires ValidBlock() && ValidMaps() && Holds(pending) && 0 <= reg < REGS && reg !in loadedRegs
      requires !loadValue ==> reg in pending
      requires |loadedRegs| < |allocOrder|
      modifies this`mapping, this`nativeRegsUsed, this`loadedRegs, this`native
      ensures ValidMaps() && Holds(pending)
      ensures loadedRegs == old(loadedRegs) + {reg} && |loadedRegs| == |old(loadedRegs)| + 1
    {
      hide RegisterCache.ValidMaps, RegisterCache.Holds, RegisterCache.ValidSuffix;
      FreeRegisterExists();
      var ok := LoadRegister(reg, loadValue, pending);
    }

    // Loads the registers of `regs`, those outside `pending` with their values.
    method LoadNeeded(regs: set<int>, values: set<int>, ghost pending: set<int>)
      requires ValidBlock() && ValidMaps() && Holds(pending) && regs !! loadedRegs
      requires regs <= pending + values && forall r | r in regs :: 0 <= r < REGS
      requires |loadedRegs| + |regs| <= |allocOrder|
      modifies this`mapping, this`nativeRegsUsed, this`loadedRegs, this`native
      ensures ValidMaps() && Holds(pending)
      ensures loadedRegs == old(loadedRegs) + regs
    {
      hide RegisterCache.ValidMaps, RegisterCache.Holds, RegisterCache.ValidSuffix;
      BelowAll(regs);
      ghost var start := loadedRegs;
      var reg := 0;
      while reg < REGS
        invariant 0 <= reg <= REGS
        invariant ValidMaps() && Holds(pending)
        invariant loadedRegs == start + Below(regs, reg)
      {
        BelowSteps(regs, reg);
        if reg in regs {
          BelowLeavesRoom(start, regs, reg);
          LoadOne(reg, reg in values, pending);
        }
        reg := reg + 1;
      }
    }

    // The same for registers that are only loaded while native registers are left.
    method LoadWhileRoom(regs: set<int>, values: set<int>, ghost pending: set<int>)
      requires ValidBlock() && ValidMaps() && Holds(pending) && regs !! loadedRegs
      requires regs <= pending + values && forall r | r in regs :: 0 <= r < REGS
      requires |loadedRegs| <= |allocOrder|
      modifies this`mapping, this`nativeRegsUsed, this`loadedRegs, this`native
      ensures ValidMaps() && Holds(pending)
      ensures old(loadedRegs) <= loadedRegs <= old(loadedRegs) + regs
      ensures |loadedRegs| <= |allocOrder|
      ensures |loadedRegs| < |allocOrder| ==> loadedRegs == old(loadedRegs) + regs
    {
      hide RegisterCache.ValidMaps, RegisterCache.Holds, RegisterCache.ValidSuffix;
      BelowAll(regs);
      ghost var start := loadedRegs;
      var left := |allocOrder| - |loadedRegs|;
      var reg := 0;
      while reg < REGS
        invariant 0 <= reg <= REGS
        invariant ValidMaps() && Holds(pending)
        invariant loadedRegs == start + Below(regs, reg)
        invariant |loadedRegs| + left == |allocOrder| && 0 <= left
      {
        BelowSteps(regs, reg);
        if reg in regs {
          if left == 0 {
            break;
          }
          LoadOne(reg, reg in values, pending);
          left := left - 1;
        }
        reg := reg + 1;
      }
    }

    // The registers that instruction i writes without reading their old value first.
    ghost function Pending(i: nat): set<int>
      requires i < |instrs|
    {
      if instrs[i].conditional then {} else instrs[i].dstRegs - instrs[i].srcRegs
    }

    ghost predicate Prepared(i: nat)
      reads this
    {
      && i < |instrs| && ValidBlock() && ValidMaps() && ValidSuffix() && suffixCursor == i
      && Holds(Pending(i))
      && instrs[i].Necessary(pcAllocatableAsSrc) <= loadedRegs
      && loadedRegs * instrs[i].dstRegs - {PC} <= dirtyRegs
      && literalsLoaded !! instrs[i].dstRegs
    }

    // The PC is never kept, and instruction i makes literals in its destinations stale.
    method DropStale(i: nat)
      requires ValidMaps() && Holds({}) && i < |instrs|
      modifies this`mapping, this`nativeRegsUsed, this`loadedRegs, this`dirtyRegs, this`mem, this`literalsLoaded
      ensures ValidMaps() && Holds({})
      ensures loadedRegs == old(loadedRegs) - {PC}
      ensures literalsLoaded == old(literalsLoaded) - instrs[i].dstRegs
    {
      if PC in loadedRegs {
        UnloadRegister(PC, {});
      }
      literalsLoaded := literalsLoaded - instrs[i].dstRegs;
    }

    lemma SuffixIs()
      requires ValidSuffix() && suffixCursor >= 0
      ensures suffixCursor <= |instrs| && suffixNeeded == NeededFrom(instrs, suffixCursor)
    {
    }

    // Frees what is dead before instruction i.
    method ReleaseRegisters(i: nat)
      requires Valid() && suffixCursor <= i < |instrs|
      modifies this`mapping, this`nativeRegsUsed, this`loadedRegs, this`dirtyRegs, this`mem, this`literalsLoaded,
        this`suffixNeeded, this`suffixCursor, this`suffixLastUse
      ensures ValidMaps() && ValidSuffix() && Holds({}) && suffixCursor == i
      ensures literalsLoaded !! instrs[i].dstRegs
      ensures loadedRegs == old(loadedRegs) * NeededFrom(instrs, i) - {PC}
    {
      hide RegisterCache.ValidMaps, RegisterCache.Holds, RegisterCache.ValidSuffix, RegisterCache.ValidBlock;
      DropStale(i);
      AdvanceSuffix(i);
      SuffixIs();
      UnloadRegisters(loadedRegs - suffixNeeded);
    }

    // There are never more registers loaded than native registers.
    lemma LoadedBound()
      requires ValidBlock() && ValidMaps()
      ensures |loadedRegs| <= |allocOrder|
    {
      OrderCard(allocOrder, |allocOrder|);
      assert Natives() == set i | 0 <= i < |allocOrder| :: allocOrder[i];
      SubsetCard(nativeRegsUsed, Natives());
    }

    lemma HoldsWeaker(pending: set<int>)
      requires ValidMaps() && Holds({})
      ensures Holds(pending)
    {
    }

    // Loads what instruction i cannot do without.
    method LoadNecessary(i: nat)
      requires ValidBlock() && ValidMaps() && Holds({}) && i < |instrs| && PC !in loadedRegs
      modifies this`mapping, this`nativeRegsUsed, this`loadedRegs, this`dirtyRegs, this`mem, this`native
      ensures ValidMaps() && Holds(Pending(i))
      ensures instrs[i].Necessary(pcAllocatableAsSrc) <= loadedRegs
      ensures loadedRegs <= old(loadedRegs) + instrs[i].Necessary(pcAllocatableAsSrc)
    {
      hide RegisterCache.ValidMaps, RegisterCache.Holds, RegisterCache.ValidSuffix;
      var instr := instrs[i];
      var necessaryRegs := instr.Necessary(pcAllocatableAsSrc);
      var needToBeLoaded := necessaryRegs - loadedRegs;
      HoldsWeaker(Pending(i));
      EmptyDifference(necessaryRegs, loadedRegs);
      if needToBeLoaded != {} {
        Evict(i, necessaryRegs);
        needToBeLoaded := necessaryRegs - loadedRegs;
        HoldsWeaker(Pending(i));
        var needValueLoaded := needToBeLoaded;
        if !instr.conditional {
          needValueLoaded := instr.srcRegs;
        }
        NecessaryHasValue(i, needToBeLoaded);
        LoadNeeded(needToBeLoaded, needValueLoaded, Pending(i));
      }
    }

    lemma NecessaryHasValue(i: nat, regs: set<int>)
      requires i < |instrs| && instrs[i].Valid()
      requires regs <= instrs[i].srcRegs + instrs[i].dstRegs
      ensures !instrs[i].conditional ==> regs <= Pending(i) + instrs[i].srcRegs
      ensures forall r | r in regs :: 0 <= r < REGS
    {
    }

    // Loads what instruction i could also do without, as far as there is room.
    method LoadOptional(i: nat, futureNeeded: set<int>)
      requires ValidBlock() && ValidMaps() && i < |instrs| && Holds(Pending(i))
      modifies this`mapping, this`nativeRegsUsed, this`loadedRegs, this`native
      ensures ValidMaps() && Holds(Pending(i))
      ensures old(loadedRegs) <= loadedRegs <= old(loadedRegs) + instrs[i].notStrictlyNeeded
      ensures |loadedRegs| < |allocOrder| ==>
        instrs[i].notStrictlyNeeded * futureNeeded <= loadedRegs
    {
      hide RegisterCache.ValidMaps, RegisterCache.Holds, RegisterCache.ValidSuffix;
      var instr := instrs[i];
      var loadRegs := instr.notStrictlyNeeded * futureNeeded - loadedRegs;
      LoadedBound();
      EmptyDifference(instr.notStrictlyNeeded * futureNeeded, loadedRegs);
      if loadRegs != {} && |loadedRegs| < |allocOrder| {
        NecessaryHasValue(i, loadRegs);
        LoadWhileRoom(loadRegs, if instr.conditional then loadRegs else instr.srcRegs, Pending(i));
      }
    }

    /**
      Brings the registers of instruction i into native registers. Never runs out of native
      registers, and afterwards every register the instruction depends on can be read.
    */
    method Prepare(i: nat)
      requires Valid() && suffixCursor <= i < |instrs|
      modifies this`mapping, this`nativeRegsUsed, this`loadedRegs, this`dirtyRegs, this`mem, this`native,
        this`literalsLoaded, this`suffixNeeded, this`suffixCursor, this`suffixLastUse
      ensures Prepared(i)
    {
      hide RegisterCache.ValidMaps, RegisterCache.Holds, RegisterCache.ValidSuffix, RegisterCache.ValidBlock;
      ReleaseRegisters(i);
      var futureNeeded := suffixNeeded;
      LoadNecessary(i);
      LoadOptional(i, futureNeeded);
      MarkDirty(i);
    }

    // The instruction is about to write those of its destinations that are loaded.
    method MarkDirty(i: nat)
      requires i < |instrs| && ValidBlock() && ValidMaps() && ValidSuffix() && suffixCursor == i
      requires Holds(Pending(i)) && literalsLoaded !! instrs[i].dstRegs
      requires instrs[i].Necessary(pcAllocatableAsSrc) <= loadedRegs
      modifies this`dirtyRegs
      ensures Prepared(i)
    {
      dirtyRegs := dirtyRegs + (loadedRegs * instrs[i].dstRegs - {PC});
    }

    lemma InputsReadable(i: nat)
      requires Prepared(i)
      ensures forall r | r in instrs[i].Inputs() && 0 <= r < PC :: View(r) == guest[r]
    {
    }

    // The guest registers as compiled code finds them.
    function ReadRegisters(): (regs: Regs)
      reads this
      requires ValidMaps()
      ensures forall r | 0 <= r < REGS :: regs[r] == View(r)
    {
      var mapping, native, mem, loaded := mapping, native, mem, loadedRegs;
      seq(REGS, r requires 0 <= r < REGS && (r in loaded ==> mapping[r] in native) =>
        if r in loaded then native[mapping[r]] else mem[r])
    }

    // Results go to the native register of each loaded destination, to memory for the others.
    method WriteRegisters(dst: set<int>, result: Regs)
      requires ValidMaps()
      modifies this`mem, this`native
      ensures ValidMaps()
      ensures forall r | 0 <= r < REGS :: View(r) == if r in dst then result[r] else old(View(r))
      ensures forall r | 0 <= r < REGS :: mem[r] == if r in dst && r !in loadedRegs then result[r] else old(mem[r])
    {
      var loaded, was := loadedRegs, mem;
      native := native + map r | r in dst * loaded :: mapping[r] := result[r];
      mem := seq(REGS, r requires 0 <= r < REGS => if r in dst && r !in loaded then result[r] else was[r]);
    }

    // The emitted body of instruction i.
    method RunInstr(i: nat, m: Meaning)
      requires Prepared(i) && Describes(instrs, m)
      modifies this`mem, this`native, this`guest
      ensures Valid() && guest == m(i, old(guest))
    {
      hide RegisterCache.ValidSuffix, RegisterCache.ValidMaps;
      InputsReadable(i);
      var seen := ReadRegisters();
      assert Agree(seen, guest, instrs[i].Inputs());
      WriteRegisters(instrs[i].dstRegs, m(i, seen));
      assert Agree(m(i, seen), m(i, guest), instrs[i].dstRegs);
      guest := m(i, guest);
    }

    // Records that the code just emitted left a known value in a register.
    method PutLiteral(reg: int, val: int)
      requires Valid() && 0 <= reg < PC && guest[reg] == val
      modifies this`literalsLoaded, this`literalValues
      ensures Valid() && literalsLoaded == old(literalsLoaded) + {reg}
    {
      literalsLoaded := literalsLoaded + {reg};
      literalValues := literalValues[reg := val];
    }

    // -------- leaving --------

    // Before a conditional exit: memory is made current and the mapping kept.
    method PrepareExit(mask: set<int>)
      requires Valid()
      modifies this`mem
      ensures Valid()
      ensures forall r | r in mask && 0 <= r < PC :: mem[r] == guest[r]
    {
      var dirty, regs, was := dirtyRegs * mask, ReadRegisters(), mem;
      mem := seq(REGS, r requires 0 <= r < REGS => if r in dirty then regs[r] else was[r]);
    }

    method Flush()
      requires Valid()
      modifies this`mapping, this`nativeRegsUsed, this`loadedRegs, this`dirtyRegs, this`mem, this`literalsLoaded
      ensures Valid() && loadedRegs == {} && literalsLoaded == {}
      ensures forall r | 0 <= r < PC :: mem[r] == guest[r]
    {
      UnloadRegisters(loadedRegs);
      literalsLoaded := {};
    }

    // An instruction that is not compiled runs in the interpreter, on the registers in memory.
    method Interpret(i: nat, m: Meaning)
      requires Valid() && loadedRegs == {} && literalsLoaded == {} && i < |instrs| && Describes(instrs, m)
      modifies this`mem, this`guest
      ensures Valid() && guest == m(i, old(guest))
    {
      assert Agree(mem, guest, instrs[i].Inputs());
      assert Agree(m(i, mem), m(i, guest), instrs[i].dstRegs);
      mem := m(i, mem);
      guest := m(i, guest);
    }

    /**
      A whole block: instructions are compiled or interpreted as `compiled` says. At the end
      memory holds exactly the registers that interpreting the block would leave.
    */
    method CompileBlock(m: Meaning, compiled: nat -> bool)
      requires Valid() && suffixCursor == -1 && Describes(instrs, m)
      modifies this
      ensures Valid() && loadedRegs == {}
      ensures forall r | 0 <= r < PC :: mem[r] == GuestRun(m, old(guest), |instrs|)[r]
    {
      hide RegisterCache.ValidMaps, RegisterCache.Holds, RegisterCache.ValidSuffix, RegisterCache.ValidBlock;
      var i := 0;
      while i < |instrs|
        invariant 0 <= i <= |instrs| && suffixCursor < |instrs| && suffixCursor <= i
        invariant Valid() && guest == GuestRun(m, old(guest), i)
      {
        if compiled(i) {
          Prepare(i);
          RunInstr(i, m);
        } else {
          Flush();
          Interpret(i, m);
        }
        i := i + 1;
      }
      Flush();
    }
  }
}
