/**
  A run of the block cache in which a block is taken back from the restore pool for a trace along
  other addresses (src/ARMJIT.cpp, CompileBlock).
*/
module UntakenBranch {
  import opened CodeIndex
  import opened CompiledBlocks
  import opened TraceRecording
  import opened Publication
  import opened BlockCaching
  import opened MainRamRuns

  // The memory of the run: a conditional branch over a return, another return, and what takes the
  // place of the first one.
  const BRANCH: Word := [0x00, 0xD0]
  const OTHER: Word := [0x99, 0x46]
  const FIRST: Memory := map[] + Store(0, BRANCH + RET) + Store(4, RET + RET)
  const SECOND: Memory := FIRST + Store(0, BRANCH + OTHER)

  // What the ARM7 records if the branch is not taken, and if it is.
  ghost function Untaken(): Block { ThumbTrace(0, [0, 2], [BRANCH, RET], [], {CODE_GRANULE}) }

  ghost function Taken(): Block { ThumbTrace(0, [0, 4], [BRANCH, RET], [], {CODE_GRANULE}) }

  // What the run needs of decoding: both end a block.
  predicate Decoded(endsBlock: Decoding) { endsBlock(1, true, BRANCH) && endsBlock(1, true, RET) }

  lemma Words()
    ensures CodeWord(FIRST, 0) == CodeWord(SECOND, 0) == BRANCH && CodeWord(SECOND, 2) == OTHER
    ensures CodeWord(FIRST, 2) == CodeWord(SECOND, 4) == RET
  {
    WordIs(FIRST, 0, BRANCH);
    WordIs(FIRST, 2, RET);
    WordIs(SECOND, 0, BRANCH);
    WordIs(SECOND, 2, OTHER);
    WordIs(SECOND, 4, RET);
  }

  lemma OneGranule()
    ensures {} + {CODE_GRANULE + 0 / 16} == {CODE_GRANULE} && {CODE_GRANULE} + {CODE_GRANULE + 2 / 16} == {CODE_GRANULE}
    ensures {CODE_GRANULE} + {CODE_GRANULE + 4 / 16} == {CODE_GRANULE}
    ensures [] + [0] == [0] && [0] + [2] == [0, 2] && [0] + [4] == [0, 4]
    ensures [] + [BRANCH] == [BRANCH] && [BRANCH] + [RET] == [BRANCH, RET]
    ensures !LinkSuffix(true, BRANCH) && !LinkSuffix(true, RET)
  {
  }

  // The branch alone.
  method TraceBranch(cache: BlockCache)
    requires Idle(cache) && cache.keyMap == map[] && cache.mem in {FIRST, SECOND} && Decoded(cache.endsBlock)
    modifies cache, cache.memory`states, cache.memory`code
    ensures Along(cache, ThumbTrace(0, [0], [BRANCH], [], {CODE_GRANULE}), 2) && cache.endBlock && cache.plain
    ensures cache.State() == old(cache.State()) && cache.compileWriteAddrs == [] && cache.Sound() && Unmoved(cache)
  {
    hide BlockCache.Inv, BlockCache.Sound, Along, Idle, ThumbTrace, FIRST, SECOND, BRANCH, RET, CodeWord, LinkSuffix;
    Words();
    OneGranule();
    Start(cache, 0);
    Next(cache, 0, [], [], [], {}, 0, BRANCH);
  }

  method TraceUntaken(cache: BlockCache)
    requires Idle(cache) && cache.keyMap == map[] && cache.mem == FIRST && Decoded(cache.endsBlock) && cache.args.Follows()
    modifies cache, cache.memory`states, cache.memory`code
    ensures Along(cache, Untaken(), 4) && cache.endBlock
    ensures cache.State() == old(cache.State()) && cache.compileWriteAddrs == [] && cache.Sound() && Unmoved(cache)
  {
    hide BlockCache.Inv, BlockCache.Sound, Along, Idle, ThumbTrace, FIRST, SECOND, BRANCH, RET, CodeWord, LinkSuffix;
    Words();
    OneGranule();
    TraceBranch(cache);
    OneTraced();
    Pass(cache, ThumbTrace(0, [0], [BRANCH], [], {CODE_GRANULE}), 2);
    Next(cache, 0, [0], [BRANCH], [], {CODE_GRANULE}, 2, RET);
  }

  method TraceTaken(cache: BlockCache)
    requires Idle(cache) && cache.keyMap == map[] && cache.mem == SECOND && Decoded(cache.endsBlock) && cache.args.Follows()
    modifies cache, cache.memory`states, cache.memory`code
    ensures Along(cache, Taken(), 6) && cache.endBlock
    ensures cache.State() == old(cache.State()) && cache.compileWriteAddrs == [] && cache.Sound() && Unmoved(cache)
  {
    hide BlockCache.Inv, BlockCache.Sound, Along, Idle, ThumbTrace, FIRST, SECOND, BRANCH, RET, CodeWord, LinkSuffix;
    Words();
    OneGranule();
    TraceBranch(cache);
    OneTraced();
    Follow(cache, ThumbTrace(0, [0], [BRANCH], [], {CODE_GRANULE}), 2, 4);
    Next(cache, 0, [0], [BRANCH], [], {CODE_GRANULE}, 4, RET);
  }

  lemma OneTraced()
    ensures var b := ThumbTrace(0, [0], [BRANCH], [], {CODE_GRANULE}); b.addrs != [] && |b.words| == 1 && !Linked(b)
  {
  }

  method StoreCode(args: JitArgs, endsBlock: Decoding) returns (cache: BlockCache)
    ensures fresh(cache) && fresh(cache.memory) && Idle(cache) && cache.args == args.Clamped() && cache.endsBlock == endsBlock
    ensures cache.mem == FIRST && cache.State() == Tables(map[], map[], map[], cache.fast)
  {
    hide Idle, Store;
    cache := Prepare(args, endsBlock);
    StoreFirst(cache, 0, BRANCH + RET);
    StoreFirst(cache, 4, RET + RET);
  }

  // The branch is not taken: it and the return behind it are compiled.
  method CompileUntaken(args: JitArgs, endsBlock: Decoding) returns (cache: BlockCache, id: BlockId)
    requires args.Clamped().Follows() && Decoded(endsBlock)
    ensures fresh(cache) && fresh(cache.memory) && Idle(cache) && cache.args == args.Clamped() && cache.endsBlock == endsBlock
    ensures cache.mem == FIRST && Live(cache.blocks, cache.keyMap, id) && id in cache.blocks && cache.blocks[id] == Untaken()
    ensures forall x | x in cache.blocks :: x == id
  {
    hide Idle, Along, BlockCache.Inv, BlockCache.Sound, Untaken, Outcome, Live, FIRST, Fits;
    cache := StoreCode(args, endsBlock);
    TraceUntaken(cache);
    Facts();
    ghost var t := cache.State();
    var restored: bool;
    restored, id := Finish(cache, Untaken(), 4, false);
    OutcomeShows(t, cache.State(), Untaken(), false, restored, id);
    OutcomeRestored(t, cache.State(), Untaken(), [], false, restored, id);
  }

  lemma Facts()
    ensures Untaken().addrs != [] && Taken().addrs != [] && Untaken().literals == [] && Untaken().Depends(CODE_LOCAL)
    ensures MayRestore(Untaken(), Taken())
  {
    CodeAt(0);
    assert Untaken().Hashed() == Taken().Hashed();
  }

  // The return that is branched over changes, so the block waits in the pool.
  method RetireUntaken(args: JitArgs, endsBlock: Decoding) returns (cache: BlockCache)
    requires args.Clamped().Follows() && Decoded(endsBlock)
    ensures fresh(cache) && fresh(cache.memory) && Idle(cache) && cache.args == args.Clamped() && cache.endsBlock == endsBlock
    ensures cache.mem == SECOND && cache.keyMap == map[]
    ensures var h := Untaken().Hashed();
      h in cache.restoreCandidates && cache.restoreCandidates[h] in cache.blocks && cache.blocks[cache.restoreCandidates[h]] == Untaken()
  {
    hide Idle, Untaken, Invalidated, NotedAll, NoLiveDepends, Store, Live, Owned;
    ghost var id: BlockId;
    cache, id := CompileUntaken(args, endsBlock);
    ghost var t := cache.State();
    Overwrite(cache, 0, BRANCH + OTHER);
    Facts();
    WrittenIsGone(t, cache.State(), CODE_LOCAL, id);
    OnlyBlockWaits(t, cache.State(), {CODE_LOCAL}, id, Untaken());
  }

  // The block was compiled from word w at address a.
  ghost predicate InstructionOf(b: Block, a: Local, w: Word) {
    exists k | 0 <= k < |b.addrs| && k < |b.words| :: b.addrs[k] == a && b.words[k] == w
  }

  // The block that was compiled from the old instruction cannot stand for the new path.
  lemma NotRight(b: Block)
    requires b == Restored(Untaken(), Taken())
    ensures !Right(b, SECOND) && InstructionOf(b, CODE_LOCAL + 2, RET) && CodeWord(SECOND, 2) == OTHER
  {
    Words();
    assert b.addrs[1] == CODE_LOCAL + 2 && b.words[1] == RET;
    assert (b.addrs[1] + 0, b.words[1][0]) in BytesAt(b.addrs, b.words);
    assert Read(SECOND, CODE_LOCAL + 2) == 0x99;
  }

  /**
    The restore pool compares the words of a trace, not where they came from. Here a conditional
    branch over a return is compiled untaken, the return is overwritten, and the same branch is
    traced taken, to another return: the words are the same, and the block with the old return is
    live again. Both traces end at the return.
  */
  method TakenPathRestoresUntaken(args: JitArgs, endsBlock: Decoding) returns (cache: BlockCache, id: BlockId)
    requires args.Clamped().Follows() && Decoded(endsBlock)
    ensures fresh(cache) && cache.args == args.Clamped() && cache.Inv() && !cache.Sound()
    ensures Live(cache.blocks, cache.keyMap, id) && InstructionOf(cache.blocks[id], CODE_LOCAL + 2, RET)
    ensures CodeWord(cache.mem, 2) == OTHER
  {
    hide Idle, Along, BlockCache.Inv, BlockCache.Sound, Untaken, Taken, Outcome, Live, MayRestore, Right, Restored, SECOND;
    cache := RetireUntaken(args, endsBlock);
    TraceTaken(cache);
    Facts();
    ghost var t := cache.State();
    var restored: bool;
    restored, id := Finish(cache, Taken(), 6, false);
    OutcomeRestored(t, cache.State(), Taken(), [], false, restored, id);
    OutcomeShows(t, cache.State(), Taken(), false, restored, id);
    NotRight(StagedBlock(t, Taken(), restored, id));
  }
}
