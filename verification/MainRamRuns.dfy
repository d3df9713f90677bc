/**
  Steps of runs of the block cache with Thumb code of the ARM7 in main RAM, mapped as after reset.
*/
module MainRamRuns {
  import opened Options
  import opened CodeIndex
  import opened CompiledBlocks
  import opened TraceRecording
  import opened Publication
  import opened BlockCaching
  import opened CodeAddresses
  import opened FastMemories
  import opened Jits
  import L = LocalAddresses

  const RET: Word := [0x70, 0x47]

  // The mapping after reset.
  const PLAIN_MAPPING := L.Mapping(false, 0x40_0000, 0, None, None, None, false, false, false, false,
    _ => false, (_, _) => 0, (_, _) => 0, (_, _, _) => None)

  const CODE := 0x200_0000
  const CODE_LOCAL := 0x2000_0000
  const CODE_RANGE := 0x10_0000
  const CODE_GRANULE := 0x200_0000
  const RANGES := 0x10_0040

  function At(): Localisation { CodeMap(PLAIN_MAPPING, 1) }

  lemma PlainMapping()
    ensures Backed(PLAIN_MAPPING) && Ranged(At())
  {
    MappedInRanges(PLAIN_MAPPING, 1);
  }

  lemma CodeAt(k: nat)
    requires k < 0x8000
    ensures At()(CODE + k) == CODE_LOCAL + k && RangeOf(CODE_LOCAL + k) == CODE_RANGE + k / 512
    ensures GranuleOf(CODE_LOCAL + k) == CODE_GRANULE + k / 16 && RegionOf(CODE_LOCAL + k) == 4
  {
  }

  function CodeWord(mem: Memory, k: nat): Word { Bytes(mem, CODE_LOCAL + k, 2) }

  function FetchedAt(mem: Memory, k: nat): Fetched { Fetched(CODE + k, CODE_LOCAL + k, CodeWord(mem, k)) }

  lemma FetchAt(mem: Memory, k: nat)
    requires k < 0x8000
    ensures Fetch(mem, 1, true, At(), CODE + k) == FetchedAt(mem, k)
  {
    CodeAt(k);
  }

  lemma WordIs(mem: Memory, k: nat, w: Word)
    requires |w| == 2 && Read(mem, CODE_LOCAL + k) == w[0] && Read(mem, CODE_LOCAL + k + 1) == w[1]
    ensures CodeWord(mem, k) == w
  {
    var b := CodeWord(mem, k);
    assert b[0] == w[0] && b[1] == w[1];
  }

  ghost predicate Idle(cache: BlockCache)
    reads cache, cache.memory
  {
    && cache.Inv() && cache.Sound() && !cache.compilingBlock && cache.ranges == RANGES
    && !cache.interrupted && cache.memory.mapping == PLAIN_MAPPING
  }

  // What the ARM7 has recorded from `start` on: some instructions and some folded literals of 0, in granules `mask`.
  ghost function ThumbTrace(start: nat, offsets: seq<nat>, words: seq<Word>, literals: seq<nat>, mask: Mask): Block {
    Block(1, true, CODE + start, CODE_LOCAL + start, Shifted(offsets, CODE), Shifted(offsets, CODE_LOCAL), words,
      Shifted(literals, CODE_LOCAL), seq(|literals|, _ => ZERO), if offsets == [] then [] else [CODE_RANGE],
      if offsets == [] then map[] else map[CODE_RANGE := mask], false)
  }

  const ZERO: Word := [0, 0, 0, 0]

  ghost function Shifted(offsets: seq<nat>, base: nat): seq<nat> {
    seq(|offsets|, k requires 0 <= k < |offsets| => base + offsets[k])
  }

  lemma ShiftedMore(offsets: seq<nat>, base: nat, k: nat)
    ensures Shifted(offsets + [k], base) == Shifted(offsets, base) + [base + k]
  {
  }

  lemma NoneTraced(start: nat)
    ensures ThumbTrace(start, [], [], [], {}) == NewTrace(1, true, CODE + start, CODE_LOCAL + start)
  {
  }

  function More(mask: Mask, k: nat): Mask { mask + {CODE_GRANULE + k / 16} }

  // An instruction more.
  lemma TracedMore(start: nat, offsets: seq<nat>, words: seq<Word>, literals: seq<nat>, mask: Mask, k: nat, mem: Memory)
    requires k < 60 && (offsets == [] ==> mask == {} && literals == [])
    ensures var b := ThumbTrace(start, offsets, words, literals, mask);
      var b' := ThumbTrace(start, offsets + [k], words + [CodeWord(mem, k)], literals, mask + {CODE_GRANULE + k / 16});
      Moved(b.ranges, b'.ranges, CODE_RANGE) && WithInstruction(b, FetchedAt(mem, k), b'.ranges) == b'
  {
    CodeAt(k);
    ShiftedMore(offsets, CODE, k);
    ShiftedMore(offsets, CODE_LOCAL, k);
    hide Shifted, CodeWord, RangeOf, GranuleOf, RegionOf;
    var b := ThumbTrace(start, offsets, words, literals, mask);
    assert [CODE_RANGE][0 := [CODE_RANGE][0]][0 := CODE_RANGE] == [CODE_RANGE];
    assert AddMask(b.masks, CODE_LOCAL + k) == map[CODE_RANGE := mask + {CODE_GRANULE + k / 16}];
  }

  // A literal more.
  lemma FoldedMore(start: nat, offsets: seq<nat>, words: seq<Word>, literals: seq<nat>, mask: Mask, k: nat)
    requires k < 60 && offsets != []
    ensures var b := ThumbTrace(start, offsets, words, literals, mask);
      WithLiteral(b, CODE_LOCAL + k, ZERO, [CODE_RANGE]) == ThumbTrace(start, offsets, words, literals + [k], mask + {CODE_GRANULE + k / 16})
  {
    CodeAt(k);
    ShiftedMore(literals, CODE_LOCAL, k);
    hide Shifted, RangeOf, GranuleOf, RegionOf;
    var b := ThumbTrace(start, offsets, words, literals, mask);
    assert AddMask(b.masks, CODE_LOCAL + k) == map[CODE_RANGE := mask + {CODE_GRANULE + k / 16}];
    assert seq(|literals|, _ => ZERO) + [ZERO] == seq(|literals + [k]|, _ => ZERO);
  }

  // Trace b is being recorded, the instruction at offset `next` is in front of the pipeline.
  ghost predicate Along(cache: BlockCache, b: Block, next: nat)
    reads cache, cache.memory
  {
    && cache.Inv() && cache.compilingBlock && cache.localise == At() && cache.ranges == RANGES && !cache.interrupted
    && cache.trace == b && b.num == 1 && b.thumb && cache.count == |b.words| && cache.memory.mapping == PLAIN_MAPPING
    && cache.pipeline == [FetchedAt(cache.mem, next), FetchedAt(cache.mem, next + 2)]
  }

  method Prepare(args: JitArgs, endsBlock: Decoding) returns (cache: BlockCache)
    ensures fresh(cache) && fresh(cache.memory) && Idle(cache) && cache.args == args.Clamped() && cache.endsBlock == endsBlock
    ensures cache.State() == Tables(map[], map[], map[], cache.fast) && cache.invalidLiterals == {} && cache.mem == map[]
  {
    hide BlockCache.Inv, BlockCache.Sound;
    PlainMapping();
    BackedIsValid(PLAIN_MAPPING);
    var memory := new FastMemory(0x1000, PLAIN_MAPPING);
    cache := new BlockCache(RANGES, memory, args, endsBlock);
  }

  function Store(k: nat, w: Word): Memory
    requires |w| == 4
  {
    map[CODE_LOCAL + k := w[0], CODE_LOCAL + k + 1 := w[1], CODE_LOCAL + k + 2 := w[2], CODE_LOCAL + k + 3 := w[3]]
  }

  // A store of two instructions, and what it leaves alone.
  lemma StoredHalves(mem: Memory, k: nat, v: Word, w: Word)
    requires |v| == |w| == 2
    ensures CodeWord(mem + Store(k, v + w), k) == v && CodeWord(mem + Store(k, v + w), k + 2) == w
  {
    WordIs(mem + Store(k, v + w), k, v);
    WordIs(mem + Store(k, v + w), k + 2, w);
  }

  lemma StoredBeside(mem: Memory, k: nat, w: Word, j: nat)
    requires |w| == 4 && (j + 2 <= k || k + 4 <= j)
    ensures CodeWord(mem + Store(k, w), j) == CodeWord(mem, j)
  {
    WordIs(mem + Store(k, w), j, CodeWord(mem, j));
  }

  lemma StoreInGranule(k: nat, w: Word)
    requires |w| == 4 && k % 4 == 0 && k < 0x7FFC
    ensures RangeOf(CODE_LOCAL + k) < RANGES
    ensures forall x | x in Store(k, w) :: GranuleOf(x) == GranuleOf(CODE_LOCAL + k)
  {
    CodeAt(k);
    CodeAt(k + 1);
    CodeAt(k + 2);
    CodeAt(k + 3);
  }

  // A store of one word.
  method Overwrite(cache: BlockCache, k: nat, w: Word)
    requires Idle(cache) && |w| == 4 && k % 4 == 0 && k < 0x7FFC
    modifies cache, cache.memory`states, cache.memory`code
    ensures Idle(cache) && cache.args == old(cache.args) && cache.mem == old(cache.mem) + Store(k, w)
    ensures Invalidated(old(cache.State()), cache.State(), CODE_LOCAL + k) && NoLiveDepends(cache.blocks, cache.keyMap, CODE_LOCAL + k)
    ensures cache.invalidLiterals == old(cache.invalidLiterals) + NotedAll(old(cache.State()), cache.State(), CODE_LOCAL + k)
    ensures Owned(cache.blocks, cache.keyMap, cache.restoreCandidates)
  {
    hide BlockCache.Core, BlockCache.Tracing, BlockCache.Sound, AllRight, Invalidated, NotedAll, NoLiveDepends, CountOk;
    StoreInGranule(k, w);
    cache.GuestWrite(CODE_LOCAL + k, Store(k, w));
    CoreOwns(cache);
  }

  // A store while there are no blocks.
  method StoreFirst(cache: BlockCache, k: nat, w: Word)
    requires Idle(cache) && cache.State() == Tables(map[], map[], map[], cache.fast) && |w| == 4 && k % 4 == 0 && k < 0x7FFC
    modifies cache, cache.memory`states, cache.memory`code
    ensures Idle(cache) && cache.args == old(cache.args) && cache.State() == Tables(map[], map[], map[], cache.fast)
    ensures cache.mem == old(cache.mem) + Store(k, w) && cache.invalidLiterals == old(cache.invalidLiterals)
  {
    hide Idle, Invalidated, NotedAll, NoLiveDepends, Store, Owned;
    ghost var t := cache.State();
    Overwrite(cache, k, w);
    NothingStays(t, cache.State(), CODE_LOCAL + k);
    NotedNone(t, cache.State(), CODE_LOCAL + k);
  }

  lemma CoreOwns(cache: BlockCache)
    requires cache.Inv()
    ensures Owned(cache.blocks, cache.keyMap, cache.restoreCandidates)
  {
  }

  lemma NotedNone(t: Tables, t': Tables, a: Local)
    requires t.blocks == map[]
    ensures NotedAll(t, t', a) == {}
  {
  }

  lemma CanStart(k: nat)
    requires k < 0x600 && k % 2 == 0
    ensures StartOk(1, true, CODE + k, At()(CODE + k), RANGES) && At()(CODE + k) == CODE_LOCAL + k
  {
    CodeAt(k);
  }

  method Start(cache: BlockCache, k: nat)
    requires Idle(cache) && cache.keyMap == map[] && k < 0x600 && k % 2 == 0
    modifies cache, cache.memory`states, cache.memory`code
    ensures Along(cache, ThumbTrace(k, [], [], [], {}), k) && cache.State() == old(cache.State()) && !cache.endBlock
    ensures cache.compileWriteAddrs == [] && cache.Sound() && Unmoved(cache)
  {
    hide BlockCache.Inv, BlockCache.Sound, StartOk, Fetch, At, Ranged, NewTrace, ThumbTrace;
    PlainMapping();
    CanStart(k);
    NoneTraced(k);
    StartNew(cache, 1, true, CODE + k, At());
    Started(cache, k);
  }

  // A trace without an older block for its key.
  method StartNew(cache: BlockCache, num: nat, thumb: bool, addr: nat, at: Localisation)
    requires cache.Inv() && !cache.compilingBlock && cache.keyMap == map[]
    requires Ranged(at) && at(addr) != 0 && (!thumb ==> addr % 4 == 0) && StartOk(num, thumb, addr, at(addr), cache.ranges)
    modifies cache, cache.memory`states, cache.memory`code
    ensures cache.Inv() && cache.compilingBlock && cache.Prepared(num, thumb, addr, at) && cache.State() == old(cache.State())
    ensures Unmoved(cache) && cache.interrupted == old(cache.interrupted) && (old(cache.Sound()) ==> cache.Sound())
  {
    hide BlockCache.Inv, BlockCache.Reached, StartOk, BlockCache.Sound, Ranged, Shed, OnlyRemoved, BlockCache.Prepared;
    cache.StartCompile(num, thumb, addr, at);
  }

  lemma Started(cache: BlockCache, k: nat)
    requires cache.Inv() && cache.compilingBlock && cache.ranges == RANGES && !cache.interrupted && k < 0x600
    requires cache.Prepared(1, true, CODE + k, At()) && cache.memory.mapping == PLAIN_MAPPING
    ensures Along(cache, ThumbTrace(k, [], [], [], {}), k)
  {
    hide BlockCache.Inv, Fetch, At, CodeWord;
    CodeAt(k);
    NoneTraced(k);
    FetchAt(cache.mem, k);
    FetchAt(cache.mem, k + 2);
  }

  // What recording does not change.
  twostate predicate Unmoved(cache: BlockCache)
    reads cache
  {
    && cache.args == old(cache.args) && cache.mem == old(cache.mem)
    && cache.invalidLiterals == old(cache.invalidLiterals)
  }

  // The next instruction is recorded.
  method Next(cache: BlockCache, ghost start: nat, ghost offsets: seq<nat>, ghost words: seq<Word>, ghost literals: seq<nat>,
              ghost mask: Mask, ghost k: nat, ghost w: Word)
    requires |offsets| == |words| < 8 && k < 56 && !LinkSuffix(true, w) && (offsets == [] ==> mask == {} && literals == [])
    requires CodeWord(cache.mem, k) == w && (offsets == [] || (!cache.endBlock && |words| < cache.args.maxBlockSize))
    requires Along(cache, ThumbTrace(start, offsets, words, literals, mask), k)
    modifies cache`trace, cache`pipeline, cache`count, cache`endBlock, cache`plain
    ensures cache.endBlock == cache.endsBlock(1, true, w) && cache.plain
    ensures Along(cache, ThumbTrace(start, offsets + [k], words + [w], literals, More(mask, k)), k + 2)
  {
    hide BlockCache.Kept, TraceOk, NoneTouched, CountOk, WithInstruction, AheadInLine, Moved, CodeWord, LinkSuffix, HalfLink, At,
      Fetch, RangeOf;
    ghost var b := ThumbTrace(start, offsets, words, literals, mask);
    CodeAt(k);
    FetchAt(cache.mem, k + 4);
    TracedMore(start, offsets, words, literals, mask, k, cache.mem);
    cache.RecordInstruction();
    MovedIsOne(b.ranges, ThumbTrace(start, offsets + [k], words + [w], literals, More(mask, k)).ranges,
      cache.trace.ranges, CODE_RANGE);
  }

  // A conditional branch is not taken.
  method Pass(cache: BlockCache, ghost b: Block, ghost k: nat)
    requires Along(cache, b, k) && b.addrs != [] && cache.endBlock && cache.args.Follows() && |b.words| < cache.args.maxBlockSize
    requires !Linked(b)
    modifies cache`endBlock
    ensures Along(cache, b, k) && !cache.endBlock
  {
    hide BlockCache.Kept, TraceOk, NoneTouched, CountOk, AheadInLine, At, CodeWord, Linked;
    cache.PassBranch();
  }

  method Follow(cache: BlockCache, ghost b: Block, ghost k: nat, target: nat)
    requires Along(cache, b, k) && b.addrs != [] && target % 2 == 0 && target < 60
    requires cache.endBlock && cache.args.Follows() && |b.words| < cache.args.maxBlockSize && cache.plain && !Linked(b)
    modifies cache`pipeline, cache`endBlock, cache`plain
    ensures Along(cache, b, target) && !cache.endBlock
  {
    hide BlockCache.Kept, TraceOk, NoneTouched, CountOk, AheadInLine, Fetch, At, CodeWord, Linked;
    FetchAt(cache.mem, target);
    FetchAt(cache.mem, target + 2);
    LinkEnds(b);
    cache.FollowBranch(CODE + target);
  }

  // A literal that is not known to be written is folded, another is not.
  method Fold(cache: BlockCache, ghost start: nat, ghost offsets: seq<nat>, ghost words: seq<Word>, ghost literals: seq<nat>,
              ghost mask: Mask, ghost next: nat, k: nat)
    requires cache.args.literalOptimizations && k % 4 == 0 && cache.plain && offsets != [] && k < 60
    requires CODE_LOCAL + k in cache.invalidLiterals || Bytes(cache.mem, CODE_LOCAL + k, 4) == ZERO
    requires Along(cache, ThumbTrace(start, offsets, words, literals, mask), next)
    modifies cache`trace, cache`plain
    ensures Along(cache, if CODE_LOCAL + k in cache.invalidLiterals then ThumbTrace(start, offsets, words, literals, mask)
      else ThumbTrace(start, offsets, words, literals + [k], More(mask, k)), next)
  {
    hide BlockCache.Kept, TraceOk, NoneTouched, CountOk, AheadInLine, Bytes, WithLiteral, FetchedAt, At;
    CodeAt(k);
    FoldedMore(start, offsets, words, literals, mask, k);
    var folded := cache.RecordLiteral(CODE + k);
  }

  // The trace ends, without any writes, and is published.
  method Finish(cache: BlockCache, ghost b: Block, ghost next: nat, full: bool) returns (restored: bool, id: BlockId)
    requires Along(cache, b, next) && b.addrs != [] && cache.compileWriteAddrs == [] && cache.Sound()
    requires cache.endBlock || |b.words| >= cache.args.maxBlockSize
    modifies cache, cache.memory`placeholders, cache.memory`mappings, cache.memory`states, cache.memory`code, cache.memory`views
    ensures cache.Inv() && cache.args == old(cache.args) && cache.mem == old(cache.mem)
    ensures !restored ==> Idle(cache)
    ensures Outcome(old(cache.State()), cache.State(), b, [], full, restored, id)
    ensures cache.Sound() <==> !restored || Fits(StagedBlock(old(cache.State()), b, restored, id), b, cache.mem)
    ensures cache.invalidLiterals == if full && !restored then {} else old(cache.invalidLiterals)
  {
    hide BlockCache.Kept, BlockCache.Tracing, BlockCache.Sound, Outcome, CountOk, Right, StagedBlock, At, CodeWord;
    restored, id := cache.Publish([], full);
    assert !Hit(b, []);
  }

  ghost predicate Fits(staged: Block, b: Block, mem: Memory) {
    staged.startAddrLocal == b.startAddrLocal && Right(staged, mem)
  }
}
