/**
  A run of the block cache in which the restored block starts elsewhere than the trace, and the
  fast table keeps leading to it after it has gone (src/ARMJIT.cpp, CompileBlock).
*/
module MovedStart {
  import opened Options
  import opened CodeIndex
  import opened CompiledBlocks
  import opened TraceRecording
  import opened Publication
  import opened BlockCaching
  import opened CodeAddresses
  import opened Jits
  import Runs = MainRamRuns
  import L = LocalAddresses

  // Two 32 KB slots of NWRAM B for the ARM7, mirrored at every other slot of its window.
  function Mapping(even: nat, odd: nat): L.Mapping {
    L.Mapping(true, 0x40_0000, 0, None, None, None, false, false, false, false, cpu => cpu == 1,
      (cpu, bank) => if cpu == 1 && bank == 1 then 0x300_0000 else 0,
      (cpu, bank) => if cpu == 1 && bank == 1 then 0x304_0000 else 0,
      (cpu, bank, block) => if cpu == 1 && bank == 1 then Some(if block % 2 == 0 then even else odd) else None)
  }

  function Before(): Localisation { CodeMap(Mapping(0, 0x8000), 1) }

  function After(): Localisation { CodeMap(Mapping(0x8000, 0), 1) }

  const CODE := 0x300_0000
  const SLOT := 0x8000_0000
  const OTHER_SLOT := 0x8000_8000
  const RANGES := 0x40_0080

  lemma MappingOk(even: nat, odd: nat)
    requires even in {0, 0x8000} && odd in {0, 0x8000}
    ensures Backed(Mapping(even, odd))
  {
  }

  lemma MappingsOk()
    ensures Ranged(Before()) && Ranged(After()) && Backed(Mapping(0, 0x8000)) && Backed(Mapping(0x8000, 0))
  {
    hide Backed, Ranged;
    MappingOk(0, 0x8000);
    MappingOk(0x8000, 0);
    MappedInRanges(Mapping(0, 0x8000), 1);
    MappedInRanges(Mapping(0x8000, 0), 1);
  }

  lemma MappedTo(even: nat, odd: nat, slot: nat, k: nat)
    requires even in {0, 0x8000} && odd in {0, 0x8000} && slot < 3 && k < 16
    ensures CodeMap(Mapping(even, odd), 1)(CODE + slot * 0x8000 + k) == SLOT + (if slot % 2 == 0 then even else odd) + k
  {
  }

  lemma MappedAt(k: nat)
    requires k < 16
    ensures Before()(CODE + k) == SLOT + k && Before()(CODE + 0x8000 + k) == OTHER_SLOT + k
    ensures Before()(CODE + 0x1_0000 + k) == SLOT + k
    ensures After()(CODE + k) == OTHER_SLOT + k && After()(CODE + 0x8000 + k) == SLOT + k
    ensures After()(CODE + 0x1_0000 + k) == OTHER_SLOT + k
  {
    hide CodeMap;
    MappedTo(0, 0x8000, 0, k);
    MappedTo(0, 0x8000, 1, k);
    MappedTo(0, 0x8000, 2, k);
    MappedTo(0x8000, 0, 0, k);
    MappedTo(0x8000, 0, 1, k);
    MappedTo(0x8000, 0, 2, k);
  }

  lemma SlotRanges(k: nat)
    requires k < 16
    ensures RangeOf(SLOT + k) == 0x40_0000 && RangeOf(OTHER_SLOT + k) == 0x40_0040
    ensures GranuleOf(SLOT + k) == 0x800_0000 && GranuleOf(OTHER_SLOT + k) == 0x800_0800
    ensures RegionOf(SLOT + k) == RegionOf(OTHER_SLOT + k) == NEW_SHARED_WRAM_B
  {
  }

  // Trace b is being recorded, the instruction at `next` is in front of the pipeline.
  ghost predicate Along(cache: BlockCache, at: Localisation, b: Block, next: nat)
    reads cache, cache.memory
  {
    && cache.Inv() && cache.compilingBlock && cache.localise == at && cache.ranges == RANGES && !cache.interrupted
    && Settings(cache) && cache.trace == b && b.num == 1 && !b.thumb && cache.count == |b.words|
    && cache.pipeline == [Fetch(cache.mem, 1, false, at, next), Fetch(cache.mem, 1, false, at, next + 4)]
  }

  // Branches are followed, and branches and returns end a block.
  ghost predicate Settings(cache: BlockCache)
    reads cache
  {
    && cache.args.Follows() && cache.args.maxBlockSize > 2
    && cache.endsBlock(1, false, BNE) && cache.endsBlock(1, false, B) && cache.endsBlock(1, false, BX)
  }

  method Follow(cache: BlockCache, ghost at: Localisation, ghost b: Block, ghost next: nat, target: nat)
    requires Along(cache, at, b, next) && b.addrs != [] && target % 4 == 0 && cache.endBlock && cache.plain && |b.words| < 3
    modifies cache`pipeline, cache`endBlock, cache`plain
    ensures Along(cache, at, b, target) && !cache.endBlock
  {
    hide BlockCache.Kept, CountOk, TraceOk, NoneTouched, AheadInLine, Bytes;
    EvenByWord(target);
    cache.FollowBranch(target);
  }

  method Pass(cache: BlockCache, ghost at: Localisation, ghost b: Block, ghost next: nat)
    requires Along(cache, at, b, next) && b.addrs != [] && cache.endBlock && |b.words| < 3
    modifies cache`endBlock
    ensures Along(cache, at, b, next) && !cache.endBlock
  {
    hide BlockCache.Kept, CountOk, TraceOk, NoneTouched, AheadInLine, Bytes;
    cache.PassBranch();
  }

  // The words of the run: a conditional and an unconditional branch of 32 KB, and a return.
  const BNE: Word := [0xFF, 0x1F, 0x00, 0x1A]
  const B: Word := [0xFF, 0x1F, 0x00, 0xEA]
  const BX: Word := [0x1E, 0xFF, 0x2F, 0xE1]

  function Store(a: Local, w: Word): Memory
    requires |w| == 4
  {
    map[a := w[0], a + 1 := w[1], a + 2 := w[2], a + 3 := w[3]]
  }

  const MEMORY: Memory := Store(SLOT, BNE) + Store(SLOT + 4, B) + Store(OTHER_SLOT, BNE) + Store(OTHER_SLOT + 8, BX)

  lemma StoreReads(mem: Memory, a: Local, w: Word)
    requires |w| == 4
    ensures Bytes(mem + Store(a, w), a, 4) == w
  {
    var b := Bytes(mem + Store(a, w), a, 4);
    assert b[0] == w[0] && b[1] == w[1] && b[2] == w[2] && b[3] == w[3];
  }

  lemma StoreKeeps(mem: Memory, a: Local, w: Word, c: Local)
    requires |w| == 4 && (c + 4 <= a || a + 4 <= c)
    ensures Bytes(mem + Store(a, w), c, 4) == Bytes(mem, c, 4)
  {
  }

  lemma Words()
    ensures Bytes(MEMORY, SLOT, 4) == Bytes(MEMORY, OTHER_SLOT, 4) == BNE
    ensures Bytes(MEMORY, SLOT + 4, 4) == B && Bytes(MEMORY, OTHER_SLOT + 8, 4) == BX
  {
    hide Bytes, Store;
    var m1 := map[] + Store(SLOT, BNE);
    var m2 := m1 + Store(SLOT + 4, B);
    var m3 := m2 + Store(OTHER_SLOT, BNE);
    StoreReads(map[], SLOT, BNE);
    StoreKeeps(m1, SLOT + 4, B, SLOT);
    StoreKeeps(m2, OTHER_SLOT, BNE, SLOT);
    StoreKeeps(m3, OTHER_SLOT + 8, BX, SLOT);
    StoreReads(m1, SLOT + 4, B);
    StoreKeeps(m2, OTHER_SLOT, BNE, SLOT + 4);
    StoreKeeps(m3, OTHER_SLOT + 8, BX, SLOT + 4);
    StoreReads(m2, OTHER_SLOT, BNE);
    StoreKeeps(m3, OTHER_SLOT + 8, BX, OTHER_SLOT);
    StoreReads(m3, OTHER_SLOT + 8, BX);
    assert map[] + Store(SLOT, BNE) == Store(SLOT, BNE);
  }

  const R := 0x40_0000
  const OTHER_R := 0x40_0040
  const MASKS: map<Range, Mask> := map[R := {0x800_0000}, OTHER_R := {0x800_0800}]

  // The trace before the slots are exchanged, after each instruction, and the trace afterwards.
  const OLD0 := Block(1, false, CODE, SLOT, [], [], [], [], [], [], map[], false)
  const OLD1 := Block(1, false, CODE, SLOT, [CODE], [SLOT], [BNE], [], [], [R], map[R := {0x800_0000}], false)
  const OLD2 := Block(1, false, CODE, SLOT, [CODE, CODE + 4], [SLOT, SLOT + 4], [BNE, B], [], [], [R], map[R := {0x800_0000}], false)
  const OLD3 := Block(1, false, CODE, SLOT, [CODE, CODE + 4, CODE + 0x8008], [SLOT, SLOT + 4, OTHER_SLOT + 8], [BNE, B, BX], [], [],
                      [R, OTHER_R], MASKS, true)
  const NEW0 := Block(1, false, CODE, OTHER_SLOT, [], [], [], [], [], [], map[], false)
  const NEW1 := Block(1, false, CODE, OTHER_SLOT, [CODE], [OTHER_SLOT], [BNE], [], [], [OTHER_R], map[OTHER_R := {0x800_0800}], false)
  const NEW2 := Block(1, false, CODE, OTHER_SLOT, [CODE, CODE + 0x8004], [OTHER_SLOT, SLOT + 4], [BNE, B], [], [],
                      [OTHER_R, R], MASKS, true)
  const NEW3 := Block(1, false, CODE, OTHER_SLOT, [CODE, CODE + 0x8004, CODE + 0x1_0008], [OTHER_SLOT, SLOT + 4, OTHER_SLOT + 8],
                      [BNE, B, BX], [], [], [R, OTHER_R], MASKS, true)

  // Recording the instruction at v turns trace b into trace b'.
  ghost predicate Step(b: Block, b': Block, at: Localisation, v: nat) {
    && at(v) != 0 && RangeOf(at(v)) < RANGES && Moved(b.ranges, b'.ranges, RangeOf(at(v)))
    && WithInstruction(b, Fetch(MEMORY, 1, false, at, v), b'.ranges) == b'
  }

  method Record(cache: BlockCache, ghost at: Localisation, ghost b: Block, ghost b': Block, ghost next: nat)
    requires Along(cache, at, b, next) && cache.mem == MEMORY && |b.addrs| == |b.words| < 3 && Step(b, b', at, next)
    requires (b.addrs == [] || !cache.endBlock) && |b'.words| == |b.words| + 1 && b'.words[|b.words|] in {BNE, B, BX}
    modifies cache`trace, cache`pipeline, cache`count, cache`endBlock, cache`plain
    ensures Along(cache, at, b', next + 4) && cache.endBlock && cache.plain
  {
    hide BlockCache.Kept, CountOk, TraceOk, NoneTouched, AddedRange, Moved, AheadInLine, OtherWindow, AddMask, Bytes, BNE, B, BX;
    cache.RecordInstruction();
    MovedIsOne(b.ranges, b'.ranges, cache.trace.ranges, RangeOf(at(next)));
  }

  lemma Moves()
    ensures Moved([], [R], R) && Moved([R], [R], R) && Moved([R], [R, OTHER_R], OTHER_R)
    ensures Moved([], [OTHER_R], OTHER_R) && Moved([OTHER_R], [OTHER_R, R], R) && Moved([OTHER_R, R], [R, OTHER_R], OTHER_R)
  {
    assert [R][0 := [R][0]][0 := R] == [R];
    assert [OTHER_R, R][0 := [OTHER_R, R][1]][1 := OTHER_R] == [R, OTHER_R];
  }

  lemma OldFirst()
    ensures Step(OLD0, OLD1, Before(), CODE)
  {
    hide Before, After, Bytes, Moved, MEMORY, Step, WithInstruction;
    assert Bytes(MEMORY, SLOT, 4) == BNE by { Words(); }
    assert Moved([], [R], R) by { Moves(); }
    assert Before()(CODE) == SLOT by { MappedAt(0); }
    Lengthened(OLD0, OLD1, Before(), CODE, SLOT, BNE, R, 0x800_0000, 0);
  }

  lemma OldSecond()
    ensures Step(OLD1, OLD2, Before(), CODE + 4)
  {
    hide Before, After, Bytes, Moved, MEMORY, Step, WithInstruction;
    assert Bytes(MEMORY, SLOT + 4, 4) == B by { Words(); }
    assert Moved([R], [R], R) by { Moves(); }
    assert Before()(CODE + 4) == SLOT + 4 by { MappedAt(4); }
    Lengthened(OLD1, OLD2, Before(), CODE + 4, SLOT + 4, B, R, 0x800_0000, 4);
  }

  lemma OldThird()
    ensures Step(OLD2, OLD3, Before(), CODE + 0x8008)
  {
    hide Before, After, Bytes, Moved, MEMORY, Step, WithInstruction;
    assert Bytes(MEMORY, OTHER_SLOT + 8, 4) == BX by { Words(); }
    assert Moved([R], [R, OTHER_R], OTHER_R) by { Moves(); }
    assert Before()(CODE + 0x8008) == OTHER_SLOT + 8 by { MappedAt(8); }
    Lengthened(OLD2, OLD3, Before(), CODE + 0x8008, OTHER_SLOT + 8, BX, OTHER_R, 0x800_0800, 8);
  }

  lemma NewFirst()
    ensures Step(NEW0, NEW1, After(), CODE)
  {
    hide Before, After, Bytes, Moved, MEMORY, Step, WithInstruction;
    assert Bytes(MEMORY, OTHER_SLOT, 4) == BNE by { Words(); }
    assert Moved([], [OTHER_R], OTHER_R) by { Moves(); }
    assert After()(CODE) == OTHER_SLOT by { MappedAt(0); }
    Lengthened(NEW0, NEW1, After(), CODE, OTHER_SLOT, BNE, OTHER_R, 0x800_0800, 0);
  }

  lemma NewSecond()
    ensures Step(NEW1, NEW2, After(), CODE + 0x8004)
  {
    hide Before, After, Bytes, Moved, MEMORY, Step, WithInstruction;
    assert Bytes(MEMORY, SLOT + 4, 4) == B by { Words(); }
    assert Moved([OTHER_R], [OTHER_R, R], R) by { Moves(); }
    assert After()(CODE + 0x8004) == SLOT + 4 by { MappedAt(4); }
    Lengthened(NEW1, NEW2, After(), CODE + 0x8004, SLOT + 4, B, R, 0x800_0000, 4);
  }

  lemma NewThird()
    ensures Step(NEW2, NEW3, After(), CODE + 0x1_0008)
  {
    hide Before, After, Bytes, Moved, MEMORY, Step, WithInstruction;
    assert Bytes(MEMORY, OTHER_SLOT + 8, 4) == BX by { Words(); }
    assert Moved([OTHER_R, R], [R, OTHER_R], OTHER_R) by { Moves(); }
    assert After()(CODE + 0x1_0008) == OTHER_SLOT + 8 by { MappedAt(8); }
    Lengthened(NEW2, NEW3, After(), CODE + 0x1_0008, OTHER_SLOT + 8, BX, OTHER_R, 0x800_0800, 8);
  }

  lemma FetchIs(at: Localisation, v: nat, a: Local, w: Word)
    requires at(v) == a && Bytes(MEMORY, a, 4) == w
    ensures Fetch(MEMORY, 1, false, at, v) == Fetched(v, a, w)
  {
  }

  lemma Lengthened(b: Block, b': Block, at: Localisation, v: nat, a: Local, w: Word, r: Range, g: Granule, k: nat)
    requires b' == b.(virtuals := b.virtuals + [v], addrs := b.addrs + [a], words := b.words + [w], ranges := b'.ranges,
      masks := b'.masks, hasRemapDependency := b'.hasRemapDependency)
    requires k < 16 && ((a == SLOT + k && r == R && g == 0x800_0000) || (a == OTHER_SLOT + k && r == OTHER_R && g == 0x800_0800))
    requires at(v) == a && Bytes(MEMORY, a, 4) == w && Moved(b.ranges, b'.ranges, r)
    requires r in b'.masks && b'.masks == b.masks[r := b'.masks[r]] && b'.masks[r] == {g} && (r in b.masks ==> b.masks[r] == {g})
    requires b'.hasRemapDependency == (b.hasRemapDependency || v / 0x8000 != b.startAddr / 0x8000)
    requires b.startAddrLocal in {SLOT, OTHER_SLOT}
    ensures Step(b, b', at, v)
  {
    hide Bytes, Moved;
    SlotRanges(k);
    SlotRanges(0);
    FetchIs(at, v, a, w);
    assert AddMask(b.masks, a)[r] == {g};
    assert AddMask(b.masks, a) == b'.masks;
    assert OtherWindow(a, v, b.startAddrLocal, b.startAddr) <==> v / 0x8000 != b.startAddr / 0x8000;
  }

  ghost predicate Idle(cache: BlockCache)
    reads cache, cache.memory
  {
    && cache.Inv() && cache.Sound() && !cache.compilingBlock && cache.ranges == RANGES && !cache.interrupted
    && Settings(cache)
  }

  // A store while nothing is compiled.
  method StoreFirst(cache: BlockCache, a: Local, w: Word)
    requires Idle(cache) && cache.blocks == map[] && a in {SLOT, SLOT + 4, OTHER_SLOT, OTHER_SLOT + 8} && |w| == 4
    modifies cache, cache.memory`states, cache.memory`code
    ensures cache.args == old(cache.args) && Idle(cache) && cache.State() == Tables(map[], map[], map[], cache.fast)
    ensures cache.mem == old(cache.mem) + Store(a, w)
  {
    hide BlockCache.Kept, BlockCache.Sound, BlockCache.Tracing, CountOk, Invalidated, NotedAll, NoLiveDepends;
    SlotRanges(0);
    SlotRanges(4);
    SlotRanges(8);
    ghost var t := cache.State();
    cache.GuestWrite(a, Store(a, w));
    Runs.CoreOwns(cache);
    NothingStays(t, cache.State(), a);
  }

  // The JIT with the first mapping.
  method Empty(args: JitArgs, endsBlock: Decoding) returns (jit: Jit)
    requires args.Clamped().Follows() && args.Clamped().maxBlockSize > 2 && Decoded(endsBlock)
    ensures fresh(jit) && fresh(jit.cache) && fresh(jit.cache.memory) && Idle(jit.cache) && jit.cache.args == args.Clamped()
    ensures jit.cache.mem == map[] && jit.cache.State() == Tables(map[], map[], map[], jit.cache.fast)
    ensures jit.cache.memory.mapping == Mapping(0, 0x8000)
  {
    hide BlockCache.Inv, BlockCache.Sound, Backed;
    MappingsOk();
    jit := new Jit(RANGES, 0x1000, Mapping(0, 0x8000), args, endsBlock);
  }

  // The JIT with the first mapping and the code in memory.
  method Prepare(args: JitArgs, endsBlock: Decoding) returns (jit: Jit)
    requires args.Clamped().Follows() && args.Clamped().maxBlockSize > 2 && Decoded(endsBlock)
    ensures fresh(jit) && fresh(jit.cache) && fresh(jit.cache.memory) && Idle(jit.cache) && jit.cache.args == args.Clamped()
    ensures jit.cache.mem == MEMORY && jit.cache.State() == Tables(map[], map[], map[], jit.cache.fast)
    ensures jit.cache.memory.mapping == Mapping(0, 0x8000)
  {
    hide BlockCache.Inv, BlockCache.Sound, Backed, Store, Idle;
    MappingsOk();
    jit := Empty(args, endsBlock);
    StoreFirst(jit.cache, SLOT, BNE);
    StoreFirst(jit.cache, SLOT + 4, B);
    StoreFirst(jit.cache, OTHER_SLOT, BNE);
    StoreFirst(jit.cache, OTHER_SLOT + 8, BX);
    assert map[] + Store(SLOT, BNE) == Store(SLOT, BNE);
  }

  predicate Decoded(endsBlock: Decoding) {
    endsBlock(1, false, BNE) && endsBlock(1, false, B) && endsBlock(1, false, BX)
  }

  method Start(cache: BlockCache, at: Localisation, local: Local)
    requires Idle(cache) && cache.keyMap == map[] && Ranged(at) && at(CODE) == local && local in {SLOT, OTHER_SLOT}
    modifies cache, cache.memory`states, cache.memory`code
    ensures Along(cache, at, NewTrace(1, false, CODE, local), CODE) && cache.State() == old(cache.State()) && cache.compileWriteAddrs == []
    ensures cache.Sound() && Runs.Unmoved(cache)
  {
    hide BlockCache.Inv, BlockCache.Sound, Fetch, Ranged;
    SlotRanges(0);
    Runs.StartNew(cache, 1, false, CODE, at);
  }

  method TraceBefore(cache: BlockCache)
    requires Idle(cache) && cache.keyMap == map[] && cache.mem == MEMORY
    modifies cache, cache.memory`states, cache.memory`code
    ensures Along(cache, Before(), OLD3, CODE + 0x8008 + 4) && cache.endBlock && cache.plain && cache.Sound() && cache.compileWriteAddrs == []
    ensures cache.State() == old(cache.State()) && Runs.Unmoved(cache)
  {
    hide BlockCache.Inv, BlockCache.Sound, Before, Step, Along, Settings, MEMORY, Idle;
    TraceBeforeEntry(cache);
    OldSecond();
    Pass(cache, Before(), OLD1, CODE + 4);
    Record(cache, Before(), OLD1, OLD2, CODE + 4);
    Follow(cache, Before(), OLD2, CODE + 8, CODE + 0x8008);
    OldThird();
    Record(cache, Before(), OLD2, OLD3, CODE + 0x8008);
  }

  method TraceBeforeEntry(cache: BlockCache)
    requires Idle(cache) && cache.keyMap == map[] && cache.mem == MEMORY
    modifies cache, cache.memory`states, cache.memory`code
    ensures Along(cache, Before(), OLD1, CODE + 4) && cache.endBlock && cache.plain && cache.Sound() && cache.compileWriteAddrs == []
    ensures cache.State() == old(cache.State()) && Runs.Unmoved(cache)
  {
    hide BlockCache.Inv, BlockCache.Sound, Before, Step, Along, Settings, MEMORY;
    MappingsOk();
    MappedAt(0);
    Start(cache, Before(), SLOT);
    OldFirst();
    Record(cache, Before(), OLD0, OLD1, CODE);
  }

  method TraceAfterEntry(cache: BlockCache)
    requires Idle(cache) && cache.keyMap == map[] && cache.mem == MEMORY
    modifies cache, cache.memory`states, cache.memory`code
    ensures Along(cache, After(), NEW1, CODE + 4) && cache.endBlock && cache.plain && cache.Sound() && cache.compileWriteAddrs == []
    ensures cache.State() == old(cache.State()) && Runs.Unmoved(cache)
  {
    hide BlockCache.Inv, BlockCache.Sound, After, Step, Along, Settings, MEMORY;
    MappingsOk();
    MappedAt(0);
    Start(cache, After(), OTHER_SLOT);
    NewFirst();
    Record(cache, After(), NEW0, NEW1, CODE);
  }

  method TraceAfter(cache: BlockCache)
    requires Idle(cache) && cache.keyMap == map[] && cache.mem == MEMORY
    modifies cache, cache.memory`states, cache.memory`code
    ensures Along(cache, After(), NEW3, CODE + 0x1_0008 + 4) && cache.endBlock && cache.plain && cache.Sound() && cache.compileWriteAddrs == []
    ensures cache.State() == old(cache.State()) && Runs.Unmoved(cache)
  {
    hide BlockCache.Inv, BlockCache.Sound, After, Step, Along, Settings, MEMORY, Idle;
    TraceAfterEntry(cache);
    Follow(cache, After(), NEW1, CODE + 4, CODE + 0x8004);
    NewSecond();
    Record(cache, After(), NEW1, NEW2, CODE + 0x8004);
    Follow(cache, After(), NEW2, CODE + 0x8008, CODE + 0x1_0008);
    NewThird();
    Record(cache, After(), NEW2, NEW3, CODE + 0x1_0008);
  }

  // The trace ends at its return and is published.
  method Finish(cache: BlockCache, ghost at: Localisation, ghost b: Block, ghost next: nat) returns (restored: bool, id: BlockId)
    requires Along(cache, at, b, next) && b.addrs != [] && cache.compileWriteAddrs == [] && cache.Sound() && cache.endBlock
    modifies cache, cache.memory`placeholders, cache.memory`mappings, cache.memory`states, cache.memory`code, cache.memory`views
    ensures cache.Inv() && cache.args == old(cache.args) && cache.mem == old(cache.mem) && !cache.compilingBlock && !cache.interrupted
    ensures !restored ==> Idle(cache)
    ensures Outcome(old(cache.State()), cache.State(), b, [], false, restored, id)
    ensures cache.Sound() <==> !restored || Runs.Fits(StagedBlock(old(cache.State()), b, restored, id), b, cache.mem)
  {
    hide BlockCache.Kept, BlockCache.Tracing, BlockCache.Sound, Outcome, CountOk, Right, StagedBlock, Bytes;
    restored, id := cache.Publish([], false);
    assert !Hit(b, []);
  }

  method CompileBefore(args: JitArgs, endsBlock: Decoding) returns (jit: Jit, id: BlockId)
    requires args.Clamped().Follows() && args.Clamped().maxBlockSize > 2 && Decoded(endsBlock)
    ensures fresh(jit) && fresh(jit.cache) && fresh(jit.cache.memory) && Idle(jit.cache) && jit.cache.args == args.Clamped()
    ensures jit.cache.mem == MEMORY && jit.cache.memory.mapping == Mapping(0, 0x8000)
    ensures Live(jit.cache.blocks, jit.cache.keyMap, id) && id in jit.cache.blocks && jit.cache.blocks[id] == OLD3
    ensures forall x | x in jit.cache.blocks :: x == id
  {
    hide BlockCache.Inv, BlockCache.Sound, Along, Idle, Outcome, Live, OLD3, Before, MEMORY;
    jit := Prepare(args, endsBlock);
    TraceBefore(jit.cache);
    OldHasCode();
    ghost var t := jit.cache.State();
    var restored: bool;
    restored, id := Finish(jit.cache, Before(), OLD3, CODE + 0x8008 + 4);
    OutcomeShows(t, jit.cache.State(), OLD3, false, restored, id);
    OutcomeRestored(t, jit.cache.State(), OLD3, [], false, restored, id);
  }

  lemma OldHasCode()
    ensures OLD3.addrs != [] && NEW3.addrs != [] && OLD3.literals == []
    ensures Remappable(OLD3, WalkedRegions(true)) && OLD3.Depends(SLOT)
    ensures OLD3.startAddrLocal == SLOT && NEW3.startAddrLocal == OTHER_SLOT && MayRestore(OLD3, NEW3)
  {
    SlotRanges(0);
    assert R in OLD3.masks && RegionOfRange(R) == NEW_SHARED_WRAM_B;
    assert RegionOfRange(R) in WalkedRegions(true) && RemapDependent(OLD3, RegionOfRange(R));
    assert OLD3.words == NEW3.words;
    assert OLD3.Hashed() == NEW3.Hashed();
  }

  // The slots are exchanged: the block embeds code of another window, and goes first.
  method RetireBefore(args: JitArgs, endsBlock: Decoding) returns (jit: Jit, id: BlockId)
    requires args.Clamped().Follows() && args.Clamped().maxBlockSize > 2 && Decoded(endsBlock)
    ensures fresh(jit) && fresh(jit.cache) && fresh(jit.cache.memory) && Idle(jit.cache) && jit.cache.args == args.Clamped()
    ensures jit.cache.mem == MEMORY && jit.cache.keyMap == map[] && jit.cache.memory.mapping == Mapping(0x8000, 0)
    ensures OLD3.Hashed() in jit.cache.restoreCandidates && jit.cache.restoreCandidates[OLD3.Hashed()] == id
    ensures id in jit.cache.blocks && jit.cache.blocks[id] == OLD3 && forall x | x in jit.cache.blocks :: x == id
  {
    hide BlockCache.Kept, BlockCache.Sound, BlockCache.Tracing, CountOk, Backed, Live, Remappable, OLD3, Shed, MEMORY;
    jit, id := CompileBefore(args, endsBlock);
    MappingsOk();
    OldHasCode();
    ghost var t := jit.cache.State();
    jit.ChangeNwram(Mapping(0x8000, 0));
    Runs.CoreOwns(jit.cache);
    OnlyBlockWaits(t, jit.cache.State(), {}, id, OLD3);
  }

  // The only block is live, starts in one slot and is found through the other.
  ghost predicate Astray(cache: BlockCache, id: BlockId)
    reads cache, cache.memory
  {
    && cache.Inv() && !cache.compilingBlock && cache.ranges == RANGES
    && Live(cache.blocks, cache.keyMap, id) && cache.blocks[id] == OLD3 && (forall x | x in cache.blocks :: x == id)
    && OTHER_SLOT / 2 < |cache.fast| && cache.fast[OTHER_SLOT / 2] == FastEntry(MakeLookupTag(CODE, 1, false), id)
  }

  method RestoreElsewhere(args: JitArgs, endsBlock: Decoding) returns (jit: Jit, id: BlockId)
    requires args.Clamped().Follows() && args.Clamped().maxBlockSize > 2 && Decoded(endsBlock)
    ensures fresh(jit) && fresh(jit.cache) && fresh(jit.cache.memory) && jit.cache.args == args.Clamped()
    ensures Astray(jit.cache, id) && !jit.cache.Sound()
  {
    hide BlockCache.Inv, BlockCache.Sound, Along, Idle, OLD3, NEW3, Outcome, After, Live, MakeLookupTag, MayRestore, MEMORY, Right;
    jit, id := RetireBefore(args, endsBlock);
    IdleParts(jit.cache);
    TraceAfter(jit.cache);
    OldHasCode();
    ghost var t := jit.cache.State();
    var restored: bool;
    restored, id := Finish(jit.cache, After(), NEW3, CODE + 0x1_0008 + 4);
    OutcomeShows(t, jit.cache.State(), NEW3, false, restored, id);
    OutcomeRestored(t, jit.cache.State(), NEW3, [], false, restored, id);
    OldRestored();
  }

  lemma IdleParts(cache: BlockCache)
    requires Idle(cache)
    ensures cache.ranges == RANGES
  {
  }

  lemma OldRestored()
    ensures Restored(OLD3, NEW3) == OLD3
    ensures OLD3.startAddr == CODE && OLD3.num == 1 && !OLD3.thumb && OLD3.startAddrLocal == SLOT && NEW3.startAddrLocal == OTHER_SLOT
  {
  }

  // The block goes, and the entry in the other slot stays.
  lemma EntryStays(t: Tables, t': Tables, id: BlockId)
    requires Invalidated(t, t', SLOT) && NoLiveDepends(t'.blocks, t'.keyMap, SLOT)
    requires Live(t.blocks, t.keyMap, id) && t.blocks[id] == OLD3 && (forall x | x in t.blocks :: x == id)
    requires OTHER_SLOT / 2 < |t.fast|
    ensures |t'.fast| == |t.fast| && t'.fast[OTHER_SLOT / 2] == t.fast[OTHER_SLOT / 2] && !Live(t'.blocks, t'.keyMap, id)
  {
    OldHasCode();
    OldRestored();
    hide OLD3;
    WrittenIsGone(t, t', SLOT, id);
  }

  /**
    The restored block keeps the local address it started at. Here a block spans two slots of NWRAM
    that are then exchanged, and a trace at the same virtual address runs through the same words in
    the same ranges, from the other slot. The restored block is entered into the fast table for the
    trace's slot; when the code at its own start is overwritten it goes, but a lookup still hits it.
    Both traces end at a return.
  */
  method RestoredStartsElsewhere(args: JitArgs, endsBlock: Decoding, w: Word) returns (jit: Jit, hit: bool, id: BlockId)
    requires args.Clamped().Follows() && args.maxBlockSize > 2 && Decoded(endsBlock) && |w| == 4
    ensures fresh(jit) && jit.cache.Inv() && jit.cache.args == args.Clamped() && hit && !Live(jit.cache.blocks, jit.cache.keyMap, id)
  {
    hide BlockCache.Kept, BlockCache.Sound, BlockCache.Tracing, CountOk, OLD3, Invalidated, NoLiveDepends, Live, MakeLookupTag,
      NotedAll;
    jit, id := RestoreElsewhere(args, endsBlock);
    SlotRanges(0);
    ghost var t := jit.cache.State();
    jit.cache.GuestWrite(SLOT, Store(SLOT, w));
    EntryStays(t, jit.cache.State(), id);
    TagOfCode();
    CoreOfInv(jit.cache);
    hit, id := jit.cache.LookUpBlock(1, OTHER_SLOT, CODE, false);
  }

  lemma CoreOfInv(cache: BlockCache)
    requires cache.Inv()
    ensures cache.Core()
  {
  }

  lemma TagOfCode()
    ensures StartOk(1, false, CODE, OTHER_SLOT, RANGES)
  {
  }
}
