/**
  A DMA channel (src/DMA.cpp). A transfer runs in slices: each goes on until the CPU's time is up
  or the bus stalls it. Transfers to the geometry engine's FIFO stop after every 112 units and
  are started again. Unit timings depend on where in a burst a unit is, and main RAM bursts
  follow tables of 256 entries that end with a zero.
*/
module Dma {
  import opened Bits

  // -------- timings --------

  // Nonsequential and sequential access times.
  datatype Times = Times(n: nat, s: nat)

  // A burst table and the cursor into it.
  datatype Burst = Burst(table: seq<nat>, count: nat)

  const TABLE_SIZE := 256

  // Up to the end of the pattern there is a zero ahead, and the table begins with a unit.
  ghost predicate Terminated(table: seq<nat>, from: nat) {
    |table| == TABLE_SIZE && exists z :: from <= z < TABLE_SIZE && table[z] == 0
  }

  function Dummy(): (table: seq<nat>)
    ensures |table| == TABLE_SIZE && forall i | 0 <= i < TABLE_SIZE :: table[i] == 0
  {
    seq(TABLE_SIZE, _ => 0)
  }

  lemma DummyTerminated(from: nat)
    requires from < TABLE_SIZE
    ensures Terminated(Dummy(), from)
  {
    assert Dummy()[from] == 0;
  }

  /**
    What a channel sees of the bus, for its CPU and unit width: regions, their times, whether two
    regions share a bus, and the tables. `slow` are the regions with 16-bit sequential timing.
  */
  datatype Bus = Bus(
    wide: bool, region: U32 -> nat, times: U32 -> Times, mainRam: nat, gbaRom: nat, slow: nat -> bool,
    shared: (nat, nat) -> bool, readTables: seq<seq<nat>>, writeTables: seq<seq<nat>>)
  {
    ghost predicate Valid() {
      && TablesOk(readTables) && TablesOk(writeTables)
    }

    // Three tables for halfwords, four for words.
    ghost predicate TablesOk(tables: seq<seq<nat>>) {
      |tables| == (if wide then 4 else 3) && forall i | 0 <= i < |tables| :: Terminated(tables[i], 0) && tables[i][0] != 0
    }

    // The table of a burst, by the region and times of its other side.
    function Choose(tables: seq<seq<nat>>, other: nat, t: Times): (table: seq<nat>)
      requires |tables| == if wide then 4 else 3
    {
      if !wide then (if slow(other) then (if t.s == 4 then tables[1] else tables[2]) else tables[0])
      else if slow(other) then (if t.s == 8 then tables[2] else tables[3])
      else if t.n == 2 then tables[0]
      else tables[1]
    }

    function Width(): nat { if wide then 4 else 2 }

    // The last halfword of a 128 KiB block of GBA ROM is nonsequential.
    function BoundaryPenalty(addr: U32, burst: bool, t: Times): int {
      if addr % 0x2_0000 < 0x2_0000 - Width() || (!wide && burst) then 0 else t.n - t.s
    }
  }

  // One unit: its addresses, whether it begins a burst, and the burst state.
  datatype Unit = Unit(src: U32, dst: U32, start: bool, burst: Burst)

  // The next entry of a burst, from a new table if this one is used up.
  function NextEntry(u: Unit, table: seq<nat>): (nat, Burst)
    requires |table| == |u.burst.table| == TABLE_SIZE && u.burst.count < TABLE_SIZE
  {
    var b := if u.start || u.burst.table[u.burst.count] == 0 then Burst(table, 0) else u.burst;
    (b.table[b.count], Burst(b.table, b.count + 1))
  }

  /** The time of a unit, and the burst state after it. */
  function UnitTiming(bus: Bus, srcInc: int, dstInc: int, u: Unit): (nat, Burst)
    requires UnitFits(bus, u.burst)
  {
    var srcRgn, dstRgn, src, dst := bus.region(u.src), bus.region(u.dst), bus.times(u.src), bus.times(u.dst);
    if srcRgn == bus.mainRam then
      if dstRgn == bus.mainRam then (if bus.wide then 18 else 16, u.burst)
      else if srcInc > 0 then NextEntry(u, bus.Choose(bus.readTables, dstRgn, dst))
      else
        var low := u.src % 0x20;
        var first := if bus.wide then (if low == 0x1C then (if dst.n == 2 then 7 else 8) else 9) else if low == 0x1E then 7 else 8;
        (first + if u.start then dst.n else dst.s, u.burst)
    else if dstRgn == bus.mainRam then
      if dstInc > 0 then NextEntry(u, bus.Choose(bus.writeTables, srcRgn, src))
      else ((if u.start then src.n else src.s) + if bus.wide then 8 else 7, u.burst)
    else if bus.shared(srcRgn, dstRgn) then (src.n + dst.n + 1, u.burst)
    else
      var base := if u.start then src.n + dst.n else src.s + dst.s;
      var fromRom := if srcRgn == bus.gbaRom then bus.BoundaryPenalty(u.src, u.start, src) else 0;
      var toRom := if dstRgn == bus.gbaRom then bus.BoundaryPenalty(u.dst, u.start, dst) else 0;
      (Wrap(base + fromRom + toRom), u.burst)
  }

  // The cursor is inside the table, with the end of the pattern still ahead.
  ghost predicate BurstOk(b: Burst) { b.count < TABLE_SIZE && Terminated(b.table, b.count) }

  lemma EntryKeepsBurst(u: Unit, table: seq<nat>)
    requires BurstOk(u.burst) && Terminated(table, 0) && table[0] != 0
    ensures BurstOk(NextEntry(u, table).1)
  {
    var b := if u.start || u.burst.table[u.burst.count] == 0 then Burst(table, 0) else u.burst;
    assert Terminated(b.table, b.count) && b.table[b.count] != 0;
    var z :| b.count <= z < TABLE_SIZE && b.table[z] == 0;
    assert b.count + 1 <= z;
  }

  /** The burst cursor never leaves its table. */
  lemma TimingKeepsBurst(bus: Bus, srcInc: int, dstInc: int, u: Unit)
    requires bus.Valid() && BurstOk(u.burst)
    ensures BurstOk(UnitTiming(bus, srcInc, dstInc, u).1)
  {
    hide NextEntry;
    if bus.region(u.src) == bus.mainRam && bus.region(u.dst) != bus.mainRam && srcInc > 0 {
      EntryKeepsBurst(u, bus.Choose(bus.readTables, bus.region(u.dst), bus.times(u.dst)));
    } else if bus.region(u.src) != bus.mainRam && bus.region(u.dst) == bus.mainRam && dstInc > 0 {
      EntryKeepsBurst(u, bus.Choose(bus.writeTables, bus.region(u.src), bus.times(u.src)));
    }
  }

  // -------- a transfer as a whole --------

  // What a transfer was set up with. A chunk is what may run without starting again.
  datatype Setup = Setup(bus: Bus, srcInc: int, dstInc: int, srcAddr: U32, dstAddr: U32, srcReload: bool, dstReload: bool, fifo: bool)

  datatype Access = Access(src: U32, dst: U32, time: nat)

  const FIFO_CHUNK := 112

  function Chunk(t: Setup, rem: nat): nat { if t.fifo && rem > FIFO_CHUNK then FIFO_CHUNK else rem }

  // The unit after u.
  function Following(t: Setup, u: Unit, burst: Burst): Unit {
    Unit(Wrap(u.src + t.srcInc * t.bus.Width()), Wrap(u.dst + t.dstInc * t.bus.Width()), false, burst)
  }

  // The first unit of the next chunk.
  function Restarted(t: Setup, u: Unit): Unit {
    Unit(if t.srcReload then t.srcAddr else u.src, if t.dstReload then t.dstAddr else u.dst, true, Burst(Dummy(), u.burst.count))
  }

  /** All that is still to be done, for `iter` units before the next start and `rem` in total. */
  ghost function Plan(t: Setup, u: Unit, iter: nat, rem: nat): (plan: seq<Access>)
    requires t.bus.Valid() && BurstOk(u.burst) && iter <= rem
    ensures |plan| == rem
    decreases rem, if iter == 0 then 1 else 0
  {
    if iter > 0 then
      TimingKeepsBurst(t.bus, t.srcInc, t.dstInc, u);
      var (time, burst) := UnitTiming(t.bus, t.srcInc, t.dstInc, u);
      [Access(u.src, u.dst, time)] + Plan(t, Following(t, u, burst), iter - 1, rem - 1)
    else if rem > 0 then
      DummyTerminated(u.burst.count);
      Plan(t, Restarted(t, u), Chunk(t, rem), rem)
    else []
  }

  lemma PlanStep(t: Setup, u: Unit, iter: nat, rem: nat)
    requires t.bus.Valid() && BurstOk(u.burst) && 0 < iter <= rem
    ensures UnitFits(t.bus, u.burst)
    ensures var (time, burst) := UnitTiming(t.bus, t.srcInc, t.dstInc, u);
      BurstOk(burst) && Plan(t, u, iter, rem) == [Access(u.src, u.dst, time)] + Plan(t, Following(t, u, burst), iter - 1, rem - 1)
  {
    TimingKeepsBurst(t.bus, t.srcInc, t.dstInc, u);
  }

  // Behind a chunk, how its last unit began no longer matters.
  lemma PlanRestart(t: Setup, u: Unit, rem: nat)
    requires t.bus.Valid() && BurstOk(u.burst) && rem > 0
    ensures BurstOk(Burst(Dummy(), u.burst.count))
    ensures Plan(t, u, 0, rem) == Plan(t, Restarted(t, u), Chunk(t, rem), rem)
  {
    DummyTerminated(u.burst.count);
  }

  lemma BurstRestarts(burst: Burst)
    requires BurstOk(burst)
    ensures BurstOk(Burst(Dummy(), burst.count))
  {
    DummyTerminated(burst.count);
  }

  predicate UnitFits(bus: Bus, burst: Burst) {
    && |bus.readTables| == |bus.writeTables| == (if bus.wide then 4 else 3)
    && (forall i | 0 <= i < |bus.readTables| :: |bus.readTables[i]| == |bus.writeTables[i]| == TABLE_SIZE)
    && |burst.table| == TABLE_SIZE && burst.count < TABLE_SIZE
  }

  lemma TimingFits(bus: Bus, burst: Burst)
    requires bus.Valid() && BurstOk(burst)
    ensures UnitFits(bus, burst)
  {
  }

  lemma NoTimeYet(shift: nat)
    ensures Shifted(TotalTime([]), shift) == 0
  {
  }

  function TotalTime(accesses: seq<Access>): nat {
    if accesses == [] then 0 else accesses[0].time + TotalTime(accesses[1..])
  }

  // -------- the channel --------

  class DmaChannel {
    // The control word: count, bits 25, 30 and 31.
    const countMask: nat
    const clockShift: nat
    var count: nat
    var repeat: bool
    var irqEnabled: bool
    var enabled: bool

    // What a start sets up; it does not change during a transfer.
    var setup: Setup

    var curSrc: U32
    var curDst: U32
    var remCount: nat
    var iterCount: nat
    var running: nat
    var inProgress: bool
    var executing: bool
    var stall: bool
    var burst: Burst

    var timestamp: nat
    var irqs: nat

    // The accesses since the transfer began.
    ghost var log: seq<Access>

    ghost predicate Valid()
      reads this
    {
      && setup.bus.Valid() && BurstOk(burst) && running <= 2 && iterCount <= remCount
      && (running > 0 <==> iterCount > 0) && (remCount > 0 ==> inProgress)
      && (inProgress <==> remCount > 0) && !executing && !stall
      && (setup.fifo ==> iterCount <= FIFO_CHUNK)
    }

    constructor (countMask: nat, clockShift: nat, setup: Setup)
      requires setup.bus.Valid()
      ensures Valid() && !inProgress && this.countMask == countMask && this.setup == setup
    {
      this.countMask, this.clockShift, this.setup := countMask, clockShift, setup;
      count, repeat, irqEnabled, enabled := 0, false, false, false;
      curSrc, curDst, remCount, iterCount, running := 0, 0, 0, 0, 0;
      inProgress, executing, stall, burst := false, false, false, Burst(Dummy(), 0);
      timestamp, irqs, log := 0, 0, [];
      new;
      DummyTerminated(0);
    }

    // The unit that is next.
    ghost function Current(): Unit
      reads this
    {
      Unit(curSrc, curDst, running == 2, burst)
    }

    /** What the transfer still has to do. */
    ghost function Remaining(): (plan: seq<Access>)
      requires Valid()
      reads this
      ensures |plan| == remCount
    {
      Plan(setup, Current(), iterCount, remCount)
    }

    /**
      Starts a transfer, or goes on with one that has stopped after a chunk. A count of zero
      stands for the largest one.
    */
    method Start()
      requires Valid() && count <= countMask
      modifies this`remCount, this`iterCount, this`curSrc, this`curDst, this`running, this`burst, this`inProgress, this`log
      ensures Valid() && inProgress && running > 0
      ensures old(inProgress) ==> log + Remaining() == old(log + Remaining())
      ensures !old(inProgress) ==> log == [] && |Remaining()| == if count == 0 then countMask + 1 else count
      ensures old(running) > 0 ==> running == old(running) && remCount == old(remCount)
    {
      hide Plan, UnitTiming, Terminated, TotalTime, Dummy, Bus.TablesOk;
      if running > 0 {
        return;
      }
      if inProgress {
        PlanRestart(setup, Current(), remCount);
      } else {
        LoadCount();
      }
      BurstRestarts(burst);
      BeginChunk();
      inProgress := true;
    }

    method LoadCount()
      modifies this`remCount, this`log
      ensures remCount == (if count == 0 then countMask + 1 else count) && log == []
    {
      remCount := count;
      if remCount == 0 {
        remCount := countMask + 1;
      }
      log := [];
    }

    // A chunk begins a new burst, and reloads the addresses if it is told to.
    method BeginChunk()
      modifies this`iterCount, this`curSrc, this`curDst, this`running, this`burst
      ensures iterCount == Chunk(setup, remCount) && running == 2 && burst == Burst(Dummy(), old(burst.count))
      ensures curSrc == (if setup.srcReload then setup.srcAddr else old(curSrc))
      ensures curDst == if setup.dstReload then setup.dstAddr else old(curDst)
    {
      if setup.fifo && remCount > FIFO_CHUNK {
        iterCount := FIFO_CHUNK;
      } else {
        iterCount := remCount;
      }
      if setup.srcReload {
        curSrc := setup.srcAddr;
      }
      if setup.dstReload {
        curDst := setup.dstAddr;
      }
      running := 2;
      burst := Burst(Dummy(), burst.count);
    }

    /**
      One slice. Whatever time there is and wherever the bus stalls, it does the next part of
      what remains, at least one unit of it, and time passes accordingly.
    */
    method Run(target: nat)
      requires Valid()
      modifies this`curSrc, this`curDst, this`remCount, this`iterCount, this`running, this`inProgress, this`executing, this`stall,
        this`burst, this`timestamp, this`irqs, this`enabled, this`log
      ensures Valid() && log + Remaining() == old(log + Remaining())
      ensures old(log) <= log && timestamp == old(timestamp) + Shifted(TotalTime(log[|old(log)|..]), clockShift)
      ensures old(running) > 0 && old(timestamp) < target ==> |log| > |old(log)|
      ensures old(inProgress) && !inProgress ==> remCount == 0 && log == old(log + Remaining())
      ensures irqs == old(irqs) + if old(inProgress) && !inProgress && irqEnabled then 1 else 0
      ensures enabled == (old(enabled) && (repeat || inProgress || !old(inProgress)))
    {
      hide Plan, UnitTiming, Shifted, TotalTime, Terminated, Bus.TablesOk;
      if running == 0 || timestamp >= target {
        NoTimeYet(clockShift);
        assert log[|log|..] == [];
        return;
      }
      executing := true;
      RunUnits(target);
      executing := false;
      stall := false;
      Finish();
    }

    // The state within a slice, after some units of it.
    ghost predicate Slice(start: bool, log0: seq<Access>, all: seq<Access>, time0: nat)
      reads this
    {
      && setup.bus.Valid() && BurstOk(burst) && running == 1 && iterCount <= remCount && inProgress && executing
      && (setup.fifo ==> iterCount <= FIFO_CHUNK)
      && log0 <= log && log + Plan(setup, Unit(curSrc, curDst, start, burst), iterCount, remCount) == all
      && timestamp == time0 + Shifted(TotalTime(log[|log0|..]), clockShift)
    }

    // One unit is timed and moved, and the channel goes on to the next.
    method RunUnit(burststart: bool, ghost log0: seq<Access>, ghost all: seq<Access>, ghost time0: nat)
      requires Slice(burststart, log0, all, time0) && iterCount > 0
      modifies this`curSrc, this`curDst, this`remCount, this`iterCount, this`burst, this`timestamp, this`log
      ensures Slice(false, log0, all, time0) && |log| == |old(log)| + 1 && iterCount == old(iterCount) - 1
    {
      hide Plan, UnitTiming, BurstOk, Shifted, TotalTime, Bus.TablesOk, UnitFits;
      ghost var u, was := Unit(curSrc, curDst, burststart, burst), log;
      TimingKeepsBurst(setup.bus, setup.srcInc, setup.dstInc, u);
      TimingFits(setup.bus, burst);
      var (time, burst') := UnitTiming(setup.bus, setup.srcInc, setup.dstInc, Unit(curSrc, curDst, burststart, burst));
      ghost var a := Access(curSrc, curDst, time);
      timestamp := timestamp + Shifted(time, clockShift);
      burst := burst';
      log := log + [a];
      curSrc := Wrap(curSrc + setup.srcInc * setup.bus.Width());
      curDst := Wrap(curDst + setup.dstInc * setup.bus.Width());
      iterCount := iterCount - 1;
      remCount := remCount - 1;
      assert log[|log0|..] == was[|log0|..] + [a];
      TotalTimeSnoc(was[|log0|..], a);
      ShiftedSum(TotalTime(was[|log0|..]), time, clockShift);
      PlanStep(setup, u, iterCount + 1, remCount + 1);
      assert was + ([a] + Plan(setup, Unit(curSrc, curDst, false, burst), iterCount, remCount)) == log + Plan(setup, Unit(curSrc, curDst, false, burst), iterCount, remCount);
    }

    // The units of a slice.
    method RunUnits(target: nat)
      requires setup.bus.Valid() && BurstOk(burst) && 0 < running <= 2 && 0 < iterCount <= remCount && inProgress && executing && !stall
      requires setup.fifo ==> iterCount <= FIFO_CHUNK
      modifies this`curSrc, this`curDst, this`remCount, this`iterCount, this`running, this`stall, this`burst, this`timestamp, this`log
      ensures Slice(false, old(log), old(log + Plan(setup, Unit(curSrc, curDst, running == 2, burst), iterCount, remCount)), old(timestamp))
      ensures |log| > |old(log)|
    {
      hide Plan, BurstOk, TotalTime, Shifted;
      ghost var log0, time0 := log, timestamp;
      ghost var all := log + Plan(setup, Unit(curSrc, curDst, running == 2, burst), iterCount, remCount);
      var burststart := running == 2;
      running := 1;
      NoTimeYet(clockShift);
      assert log[|log0|..] == [];
      while iterCount > 0 && !stall
        invariant Slice(burststart, log0, all, time0)
        invariant if burststart || |log| == |log0| then log == log0 && iterCount > 0 && !stall else |log| > |log0|
        decreases iterCount
      {
        RunUnit(burststart, log0, all, time0);
        burststart := false;
        stall := StalledByBus();
        if timestamp >= target {
          break;
        }
      }
    }

    // An access can stall the channel that is executing.
    method StalledByBus() returns (stalled: bool) {
      stalled := *;
    }

    // Behind a slice: a chunk or the whole transfer may be complete.
    method Finish()
      requires setup.bus.Valid() && BurstOk(burst) && running == 1 && iterCount <= remCount && inProgress && !executing && !stall
      requires setup.fifo ==> iterCount <= FIFO_CHUNK
      modifies this`running, this`inProgress, this`enabled, this`irqs
      ensures Valid() && (inProgress <==> remCount > 0)
      ensures running == if iterCount == 0 then 0 else 1
      ensures irqs == old(irqs) + if !inProgress && irqEnabled then 1 else 0
      ensures enabled == (old(enabled) && (repeat || inProgress))
    {
      if remCount > 0 {
        if iterCount == 0 {
          running := 0;
        }
        return;
      }
      if !repeat {
        enabled := false;
      }
      if irqEnabled {
        irqs := irqs + 1;
      }
      running := 0;
      inProgress := false;
    }
  }

  function Shifted(time: nat, shift: nat): nat {
    if shift == 0 then time else 2 * Shifted(time, shift - 1)
  }

  lemma {:induction false} ShiftedSum(a: nat, b: nat, shift: nat)
    ensures Shifted(a + b, shift) == Shifted(a, shift) + Shifted(b, shift)
  {
    if shift > 0 {
      ShiftedSum(a, b, shift - 1);
    }
  }

  /** The time of a transfer is that of its slices together. */
  lemma {:induction false} TotalTimeConcat(a: seq<Access>, b: seq<Access>)
    ensures TotalTime(a + b) == TotalTime(a) + TotalTime(b)
  {
    if b == [] {
      assert a + b == a;
    } else {
      var n := |b| - 1;
      TotalTimeConcat(a, b[..n]);
      assert a + b == (a + b[..n]) + [b[n]] && b == b[..n] + [b[n]];
      TotalTimeSnoc(a + b[..n], b[n]);
      TotalTimeSnoc(b[..n], b[n]);
    }
  }

  lemma {:induction false} TotalTimeSnoc(accesses: seq<Access>, a: Access)
    ensures TotalTime(accesses + [a]) == TotalTime(accesses) + a.time
  {
    if accesses == [] {
      assert accesses + [a] == [a];
    } else {
      TotalTimeSnoc(accesses[1..], a);
      assert (accesses + [a])[1..] == accesses[1..] + [a];
    }
  }
}
