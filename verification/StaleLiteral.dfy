/**
  A run of the block cache in which native code memory is found full while a trace is compiled that
  has left a literal alone because it is known to be written (src/ARMJIT.cpp, CompileBlock). The
  reset forgets that it is, and a later trace with the same words folds the other of two literals.
*/
module StaleLiteral {
  import opened CodeIndex
  import opened CompiledBlocks
  import opened TraceRecording
  import opened Publication
  import opened BlockCaching
  import opened MainRamRuns

  // The code: two literal loads and a return; a load of the first literal, or of the second, and a return.
  const LOAD: Word := [0x07, 0x48]
  const OTHER_LOAD: Word := [0x08, 0x49]
  const FIRST_LOAD: Word := [0x03, 0x48]
  const SECOND_LOAD: Word := [0x03, 0x49]
  const LITERAL := 0x20
  const OTHER_LITERAL := 0x24
  const ONE: Word := [1, 0, 0, 0]

  // What the run needs of decoding: a return ends a block, a load does not.
  predicate Decoded(endsBlock: Decoding) {
    && endsBlock(1, true, RET) && !endsBlock(1, true, LOAD) && !endsBlock(1, true, OTHER_LOAD)
    && !endsBlock(1, true, FIRST_LOAD) && !endsBlock(1, true, SECOND_LOAD)
  }

  // A trace of both loads ends at the return, or before it if blocks have two instructions only.
  function Size(args: JitArgs): (n: nat)
    ensures n in {2, 3}
  {
    if args.maxBlockSize == 2 then 2 else 3
  }

  // The traces: of a load alone, and of both with one literal folded.
  ghost function Alone(first: bool): Block {
    if first then ThumbTrace(16, [16, 18], [FIRST_LOAD, RET], [LITERAL], {CODE_GRANULE + 1, CODE_GRANULE + 2})
    else ThumbTrace(20, [20, 22], [SECOND_LOAD, RET], [OTHER_LITERAL], {CODE_GRANULE + 1, CODE_GRANULE + 2})
  }

  ghost function Both(n: nat, literal: nat): Block
    requires n in {2, 3}
  {
    ThumbTrace(0, [0, 2, 4][..n], [LOAD, OTHER_LOAD, RET][..n], [literal], {CODE_GRANULE, CODE_GRANULE + 2})
  }

  // The code is in memory, and the second literal is 0.
  ghost predicate CodeOk(mem: Memory) {
    && CodeWord(mem, 0) == LOAD && CodeWord(mem, 2) == OTHER_LOAD && CodeWord(mem, 4) == RET
    && CodeWord(mem, 16) == FIRST_LOAD && CodeWord(mem, 18) == RET && CodeWord(mem, 20) == SECOND_LOAD && CodeWord(mem, 22) == RET
    && Value(mem, OTHER_LITERAL) == ZERO
  }

  ghost function Value(mem: Memory, k: nat): Word { Bytes(mem, CODE_LOCAL + k, 4) }

  const CODE_MEMORY: Memory :=
    map[] + Store(0, LOAD + OTHER_LOAD) + Store(4, RET + RET) + Store(16, FIRST_LOAD + RET) + Store(20, SECOND_LOAD + RET)

  lemma CodeIsOk()
    ensures CodeOk(CODE_MEMORY) && Value(CODE_MEMORY, LITERAL) == ZERO
  {
    hide Store, CodeWord, Value;
    var m1: Memory := map[] + Store(0, LOAD + OTHER_LOAD);
    var m2 := m1 + Store(4, RET + RET);
    var m3 := m2 + Store(16, FIRST_LOAD + RET);
    Stored(map[], 0, LOAD, OTHER_LOAD);
    Stored(m1, 4, RET, RET);
    Stored(m2, 16, FIRST_LOAD, RET);
    Stored(m3, 20, SECOND_LOAD, RET);
    NothingThere();
  }

  // A store of two instructions, and what it leaves alone.
  lemma Stored(mem: Memory, k: nat, v: Word, w: Word)
    requires |v| == |w| == 2
    ensures var mem' := mem + Store(k, v + w);
      && CodeWord(mem', k) == v && CodeWord(mem', k + 2) == w
      && (forall j: nat | j + 2 <= k || k + 4 <= j :: CodeWord(mem', j) == CodeWord(mem, j))
      && (forall j: nat | k + 4 <= j :: Value(mem', j) == Value(mem, j))
  {
    var mem' := mem + Store(k, v + w);
    StoredHalves(mem, k, v, w);
    forall j: nat | j + 2 <= k || k + 4 <= j ensures CodeWord(mem', j) == CodeWord(mem, j) {
      StoredBeside(mem, k, v + w, j);
    }
    forall j: nat | k + 4 <= j ensures Value(mem', j) == Value(mem, j) {
      ValueIs(mem', j, Value(mem, j));
    }
  }

  lemma NothingThere()
    ensures Value(map[], LITERAL) == Value(map[], OTHER_LITERAL) == ZERO
  {
    ValueIs(map[], LITERAL, ZERO);
    ValueIs(map[], OTHER_LITERAL, ZERO);
  }

  lemma ValueIs(mem: Memory, k: nat, w: Word)
    requires |w| == 4 && Read(mem, CODE_LOCAL + k) == w[0] && Read(mem, CODE_LOCAL + k + 1) == w[1]
    requires Read(mem, CODE_LOCAL + k + 2) == w[2] && Read(mem, CODE_LOCAL + k + 3) == w[3]
    ensures Value(mem, k) == w
  {
    var b := Value(mem, k);
    assert b[0] == w[0] && b[1] == w[1] && b[2] == w[2] && b[3] == w[3];
  }

  lemma StoreKeepsCode(mem: Memory, k: nat, w: Word)
    requires CodeOk(mem) && |w| == 4 && k in {8, LITERAL, OTHER_LITERAL} && (k == OTHER_LITERAL ==> w == ZERO)
    ensures CodeOk(mem + Store(k, w)) && Value(mem + Store(k, w), k) == w
    ensures k != LITERAL ==> Value(mem + Store(k, w), LITERAL) == Value(mem, LITERAL)
  {
    var mem' := mem + Store(k, w);
    forall j | j in {0, 2, 4, 16, 18, 20, 22} ensures CodeWord(mem', j) == CodeWord(mem, j) {
      assert forall a | CODE_LOCAL + j <= a < CODE_LOCAL + j + 2 :: Read(mem', a) == Read(mem, a);
    }
    ValueIs(mem', k, w);
    if k != OTHER_LITERAL {
      assert Value(mem', OTHER_LITERAL) == Value(mem, OTHER_LITERAL);
    }
    if k != LITERAL {
      assert Value(mem', LITERAL) == Value(mem, LITERAL);
    }
  }

  // -------- traces --------

  lemma Granules()
    ensures {} + {CODE_GRANULE + 0 / 16} == {CODE_GRANULE} && {} + {CODE_GRANULE + 16 / 16} == {CODE_GRANULE + 1}
    ensures {} + {CODE_GRANULE + 20 / 16} == {CODE_GRANULE + 1}
    ensures forall l | l in {LITERAL, OTHER_LITERAL} ::
      && {CODE_GRANULE} + {CODE_GRANULE + l / 16} == {CODE_GRANULE, CODE_GRANULE + 2}
      && {CODE_GRANULE + 1} + {CODE_GRANULE + l / 16} == {CODE_GRANULE + 1, CODE_GRANULE + 2}
    ensures forall k | k in {2, 4} ::
      && {CODE_GRANULE} + {CODE_GRANULE + k / 16} == {CODE_GRANULE}
      && {CODE_GRANULE, CODE_GRANULE + 2} + {CODE_GRANULE + k / 16} == {CODE_GRANULE, CODE_GRANULE + 2}
    ensures forall k | k in {18, 22} ::
      {CODE_GRANULE + 1, CODE_GRANULE + 2} + {CODE_GRANULE + k / 16} == {CODE_GRANULE + 1, CODE_GRANULE + 2}
  {
  }

  lemma NoLinks()
    ensures forall w | w in {LOAD, OTHER_LOAD, FIRST_LOAD, SECOND_LOAD, RET} :: !LinkSuffix(true, w) && !LinkPrefix(true, w)
    ensures forall start, offsets, words, literals, mask ::
      HalfLink(ThumbTrace(start, offsets, words, literals, mask)) == (words != [] && LinkPrefix(true, words[|words| - 1]))
  {
  }

  // One of the loads alone, up to its return.
  method TraceAlone(cache: BlockCache, first: bool)
    requires Idle(cache) && cache.keyMap == map[] && CodeOk(cache.mem) && Decoded(cache.endsBlock)
    requires cache.args.literalOptimizations && cache.args.maxBlockSize > 1
    requires var k := if first then LITERAL else OTHER_LITERAL;
      CODE_LOCAL + k !in cache.invalidLiterals && Value(cache.mem, k) == ZERO
    modifies cache, cache.memory`states, cache.memory`code
    ensures Along(cache, Alone(first), if first then 20 else 24) && cache.endBlock
    ensures cache.State() == old(cache.State()) && cache.compileWriteAddrs == [] && cache.Sound() && Unmoved(cache)
  {
    hide BlockCache.Inv, BlockCache.Sound, Along, Idle, ThumbTrace, CodeWord, LinkSuffix, LinkPrefix, HalfLink;
    var start, load, l := if first then 16 else 20, if first then FIRST_LOAD else SECOND_LOAD, if first then LITERAL else OTHER_LITERAL;
    Granules();
    NoLinks();
    Start(cache, start);
    Next(cache, start, [], [], [], {}, start, load);
    assert [] + [start] == [start] && [] + [load] == [load];
    Fold(cache, start, [start], [load], [], {CODE_GRANULE + 1}, start + 2, l);
    assert [] + [l] == [l];
    Next(cache, start, [start], [load], [l], {CODE_GRANULE + 1, CODE_GRANULE + 2}, start + 2, RET);
    assert [start] + [start + 2] == [start, start + 2] && [load] + [RET] == [load, RET];
  }

  // Both loads, one literal being known to be written.
  method TraceBoth(cache: BlockCache, noted: nat)
    requires Idle(cache) && cache.keyMap == map[] && CodeOk(cache.mem) && Decoded(cache.endsBlock)
    requires cache.args.literalOptimizations && cache.args.maxBlockSize > 1
    requires noted in {LITERAL, OTHER_LITERAL} && cache.invalidLiterals == {CODE_LOCAL + noted}
    requires noted == OTHER_LITERAL ==> Value(cache.mem, LITERAL) == ZERO
    modifies cache, cache.memory`states, cache.memory`code
    ensures var n := Size(cache.args);
      Along(cache, Both(n, LITERAL + OTHER_LITERAL - noted), 2 * n) && (cache.endBlock || n >= cache.args.maxBlockSize)
    ensures cache.State() == old(cache.State()) && cache.compileWriteAddrs == [] && cache.Sound() && Unmoved(cache)
  {
    hide BlockCache.Inv, BlockCache.Sound, Along, Idle, ThumbTrace, CodeWord, LinkSuffix, LinkPrefix, HalfLink;
    var folded := LITERAL + OTHER_LITERAL - noted;
    TraceLoads(cache, noted);
    if cache.args.maxBlockSize > 2 {
      Granules();
      NoLinks();
      Next(cache, 0, [0, 2], [LOAD, OTHER_LOAD], [folded], {CODE_GRANULE, CODE_GRANULE + 2}, 4, RET);
      assert [0, 2] + [4] == [0, 2, 4][..3] && [LOAD, OTHER_LOAD] + [RET] == [LOAD, OTHER_LOAD, RET][..3];
    } else {
      assert [0, 2] == [0, 2, 4][..2] && [LOAD, OTHER_LOAD] == [LOAD, OTHER_LOAD, RET][..2];
    }
  }

  method TraceLoads(cache: BlockCache, noted: nat)
    requires Idle(cache) && cache.keyMap == map[] && CodeOk(cache.mem) && Decoded(cache.endsBlock)
    requires cache.args.literalOptimizations && cache.args.maxBlockSize > 1
    requires noted in {LITERAL, OTHER_LITERAL} && cache.invalidLiterals == {CODE_LOCAL + noted}
    requires noted == OTHER_LITERAL ==> Value(cache.mem, LITERAL) == ZERO
    modifies cache, cache.memory`states, cache.memory`code
    ensures Along(cache,
      ThumbTrace(0, [0, 2], [LOAD, OTHER_LOAD], [LITERAL + OTHER_LITERAL - noted], {CODE_GRANULE, CODE_GRANULE + 2}), 4)
    ensures cache.State() == old(cache.State()) && cache.compileWriteAddrs == [] && cache.Sound() && Unmoved(cache) && !cache.endBlock
  {
    hide BlockCache.Inv, BlockCache.Sound, Along, Idle, ThumbTrace, CodeWord, LinkSuffix, LinkPrefix, HalfLink;
    Granules();
    NoLinks();
    TraceFirst(cache);
    assert [0] + [2] == [0, 2] && [LOAD] + [OTHER_LOAD] == [LOAD, OTHER_LOAD];
    Fold(cache, 0, [0], [LOAD], [], {CODE_GRANULE}, 2, LITERAL);
    if noted == LITERAL {
      Next(cache, 0, [0], [LOAD], [], {CODE_GRANULE}, 2, OTHER_LOAD);
      Fold(cache, 0, [0, 2], [LOAD, OTHER_LOAD], [], {CODE_GRANULE}, 4, OTHER_LITERAL);
      assert [] + [OTHER_LITERAL] == [OTHER_LITERAL];
    } else {
      assert [] + [LITERAL] == [LITERAL];
      Next(cache, 0, [0], [LOAD], [LITERAL], {CODE_GRANULE, CODE_GRANULE + 2}, 2, OTHER_LOAD);
      Fold(cache, 0, [0, 2], [LOAD, OTHER_LOAD], [LITERAL], {CODE_GRANULE, CODE_GRANULE + 2}, 4, OTHER_LITERAL);
    }
  }

  method TraceFirst(cache: BlockCache)
    requires Idle(cache) && cache.keyMap == map[] && CodeOk(cache.mem) && Decoded(cache.endsBlock)
    modifies cache, cache.memory`states, cache.memory`code
    ensures Along(cache, ThumbTrace(0, [0], [LOAD], [], {CODE_GRANULE}), 2)
    ensures cache.State() == old(cache.State()) && cache.compileWriteAddrs == [] && cache.Sound() && Unmoved(cache) && !cache.endBlock && cache.plain
  {
    hide BlockCache.Inv, BlockCache.Sound, Along, Idle, ThumbTrace, CodeWord, LinkSuffix, LinkPrefix, HalfLink;
    Granules();
    NoLinks();
    Start(cache, 0);
    Next(cache, 0, [], [], [], {}, 0, LOAD);
    assert [] + [0] == [0] && [] + [LOAD] == [LOAD];
  }

  // -------- blocks --------

  lemma BlockFacts(n: nat)
    requires n in {2, 3}
    ensures forall first ::
      var l := CODE_LOCAL + if first then LITERAL else OTHER_LITERAL;
      Alone(first).addrs != [] && Alone(first).literals == [l] && Alone(first).Depends(l)
    ensures forall l :: Both(n, l).addrs != [] && Both(n, l).literals == [CODE_LOCAL + l] && Both(n, l).Depends(CODE_LOCAL + 8)
    ensures Both(n, LITERAL).Hashed() == Both(n, OTHER_LITERAL).Hashed() != Alone(true).Hashed()
    ensures MayRestore(Both(n, LITERAL), Both(n, OTHER_LITERAL))
  {
    CodeAt(8);
    CodeAt(LITERAL);
    CodeAt(OTHER_LITERAL);
    assert Both(n, LITERAL).words == Both(n, OTHER_LITERAL).words;
    assert Both(n, LITERAL).Hashed() == Both(n, OTHER_LITERAL).Hashed();
    assert Both(n, LITERAL).Hashed()[0] == LOAD + [0, 0] && Alone(true).Hashed()[0] == FIRST_LOAD + [0, 0];
    assert (LOAD + [0, 0])[0] != (FIRST_LOAD + [0, 0])[0];
  }

  // The only live block folded the literal that is written: it is deleted, and the literal noted.
  lemma FoldedIsDeleted(t: Tables, t': Tables, a: Local, id: BlockId)
    requires Invalidated(t, t', a) && NoLiveDepends(t'.blocks, t'.keyMap, a) && Owned(t'.blocks, t'.keyMap, t'.pool)
    requires Live(t.blocks, t.keyMap, id) && t.blocks[id].Depends(a) && a in t.blocks[id].literals
    ensures id !in t'.blocks && NotedAll(t, t', a) == {a} && t.pool.Keys <= t'.pool.Keys
    ensures forall x | x in t'.blocks :: x in t.blocks && x != id && t'.blocks[x] == t.blocks[x]
    ensures (forall x | Live(t.blocks, t.keyMap, x) :: x == id) ==> t'.keyMap == map[]
    ensures (forall x | x in t.blocks :: x == id) ==> t'.blocks == map[] && t'.pool == map[] && t'.keyMap == map[]
  {
    WrittenIsGone(t, t', a, id);
    KeysAreLive(t'.blocks, t'.keyMap, t'.pool);
    PoolKnown(t'.blocks, t'.keyMap, t'.pool);
    assert Gone(t, t', id);
  }

  lemma NothingNoted(t: Tables, t': Tables, a: Local, id: BlockId)
    requires (forall x | x in t.blocks :: x == id) && id in t.blocks && a !in t.blocks[id].literals
    ensures NotedAll(t, t', a) == {}
  {
  }

  // -------- the run --------

  // What all its states have in common.
  ghost predicate Ready(cache: BlockCache, args: JitArgs, endsBlock: Decoding)
    reads cache, cache.memory
  {
    && Idle(cache) && cache.args == args && cache.endsBlock == endsBlock && CodeOk(cache.mem)
    && args.literalOptimizations && args.maxBlockSize > 1 && Decoded(endsBlock)
  }

  method StoreCode(args: JitArgs, endsBlock: Decoding) returns (cache: BlockCache)
    requires args.literalOptimizations && args.Clamped().maxBlockSize > 1 && Decoded(endsBlock)
    ensures fresh(cache) && fresh(cache.memory) && Ready(cache, args.Clamped(), endsBlock) && Value(cache.mem, LITERAL) == ZERO
    ensures cache.State() == Tables(map[], map[], map[], cache.fast) && cache.invalidLiterals == {}
    ensures Value(cache.mem, OTHER_LITERAL) == ZERO
  {
    hide Idle, Store, Value;
    cache := Prepare(args, endsBlock);
    StoreFirst(cache, 0, LOAD + OTHER_LOAD);
    StoreFirst(cache, 4, RET + RET);
    StoreFirst(cache, 16, FIRST_LOAD + RET);
    StoreFirst(cache, 20, SECOND_LOAD + RET);
    CodeIsOk();
  }

  // A load is compiled alone; if the cache was empty, its block is the only one.
  method CompileAlone(cache: BlockCache, first: bool, args: JitArgs, endsBlock: Decoding) returns (id: BlockId)
    requires Ready(cache, args, endsBlock) && cache.keyMap == map[] && !Restorable(cache.State(), Alone(first))
    requires var k := if first then LITERAL else OTHER_LITERAL;
      CODE_LOCAL + k !in cache.invalidLiterals && Value(cache.mem, k) == ZERO
    modifies cache, cache.memory
    ensures Ready(cache, args, endsBlock) && Outcome(old(cache.State()), cache.State(), Alone(first), [], false, false, id)
    ensures cache.mem == old(cache.mem) && cache.invalidLiterals == old(cache.invalidLiterals)
  {
    hide Idle, Along, BlockCache.Inv, BlockCache.Sound, Alone, Outcome, CodeOk, Value, Fits, Restorable;
    TraceAlone(cache, first);
    BlockFacts(2);
    ghost var t := cache.State();
    var restored: bool;
    restored, id := Finish(cache, Alone(first), if first then 20 else 24, false);
    OutcomeRestored(t, cache.State(), Alone(first), [], false, restored, id);
  }

  // The second literal is written after a block has folded it.
  method NoteOther(args: JitArgs, endsBlock: Decoding) returns (cache: BlockCache)
    requires args.literalOptimizations && args.Clamped().maxBlockSize > 1 && Decoded(endsBlock)
    ensures fresh(cache) && fresh(cache.memory) && Ready(cache, args.Clamped(), endsBlock) && Value(cache.mem, LITERAL) == ZERO
    ensures cache.State() == Tables(map[], map[], map[], cache.fast) && cache.invalidLiterals == {CODE_LOCAL + OTHER_LITERAL}
  {
    hide Idle, Alone, Outcome, CodeOk, Value, Invalidated, NoLiveDepends, NotedAll, Store, Owned, Decoded;
    cache := StoreCode(args, endsBlock);
    BlockFacts(2);
    ghost var t0 := cache.State();
    var id := CompileAlone(cache, false, cache.args, endsBlock);
    ghost var t := cache.State();
    OutcomeShows(t0, t, Alone(false), false, false, id);
    StoreKeepsCode(cache.mem, OTHER_LITERAL, ZERO);
    Overwrite(cache, OTHER_LITERAL, ZERO);
    FoldedIsDeleted(t, cache.State(), CODE_LOCAL + OTHER_LITERAL, id);
  }

  // Native code memory is found full when both loads are compiled.
  method CompileBoth(args: JitArgs, endsBlock: Decoding) returns (cache: BlockCache, id: BlockId)
    requires args.literalOptimizations && args.Clamped().maxBlockSize > 1 && Decoded(endsBlock)
    ensures fresh(cache) && fresh(cache.memory) && Ready(cache, args.Clamped(), endsBlock) && Value(cache.mem, LITERAL) == ZERO
    ensures id in cache.blocks && Live(cache.blocks, cache.keyMap, id) && cache.blocks[id] == Both(Size(cache.args), LITERAL)
    ensures (forall x | x in cache.blocks :: x == id) && cache.invalidLiterals == {}
  {
    hide Idle, Along, BlockCache.Inv, BlockCache.Sound, Both, Outcome, CodeOk, Value, Fits, Live, Decoded;
    cache := NoteOther(args, endsBlock);
    TraceBoth(cache, OTHER_LITERAL);
    BlockFacts(Size(cache.args));
    ghost var t, b := cache.State(), Both(Size(cache.args), LITERAL);
    SizeFits(cache, b);
    var restored: bool;
    restored, id := Finish(cache, b, 2 * Size(cache.args), true);
    OutcomeRestored(t, cache.State(), b, [], true, restored, id);
    OutcomeShows(t, cache.State(), b, true, restored, id);
  }

  lemma SizeFits(cache: BlockCache, b: Block)
    requires exists l :: b == Both(Size(cache.args), l)
    ensures |b.words| == Size(cache.args)
  {
  }

  // The block of both loads waits in the pool, and no block is live.
  ghost predicate Waiting(t: Tables, n: nat, id: BlockId)
    requires n in {2, 3}
  {
    var h := Both(n, LITERAL).Hashed();
    && t.keyMap == map[] && h in t.pool && t.pool[h] == id && id in t.blocks && t.blocks[id] == Both(n, LITERAL)
    && forall x | x in t.blocks :: x == id
  }

  // Something is written beside the code.
  method RetireBoth(args: JitArgs, endsBlock: Decoding) returns (cache: BlockCache, id: BlockId)
    requires args.literalOptimizations && args.Clamped().maxBlockSize > 1 && Decoded(endsBlock)
    ensures fresh(cache) && fresh(cache.memory) && Ready(cache, args.Clamped(), endsBlock) && Value(cache.mem, LITERAL) == ZERO
    ensures Waiting(cache.State(), Size(cache.args), id) && cache.invalidLiterals == {}
  {
    hide Idle, Live, Both, CodeOk, Value, Invalidated, NoLiveDepends, NotedAll, Store, Owned, Decoded;
    cache, id := CompileBoth(args, endsBlock);
    BlockFacts(Size(cache.args));
    ghost var t, b := cache.State(), cache.blocks[id];
    StoreKeepsCode(cache.mem, 8, ZERO);
    Overwrite(cache, 8, ZERO);
    WrittenIsGone(t, cache.State(), CODE_LOCAL + 8, id);
    OnlyBlockWaits(t, cache.State(), {CODE_LOCAL + 8}, id, b);
    NothingNoted(t, cache.State(), CODE_LOCAL + 8, id);
  }

  // The block of the first load is the only live one; the block of both loads still waits.
  ghost predicate Beside(t: Tables, n: nat, id: BlockId, alone: BlockId)
    requires n in {2, 3}
  {
    && Live(t.blocks, t.keyMap, alone) && t.blocks[alone] == Alone(true) && alone != id
    && Both(n, LITERAL).Hashed() in t.pool && (forall x | x in t.blocks :: x == id || x == alone)
    && (id in t.blocks ==> t.blocks[id] == Both(n, LITERAL)) && forall x | Live(t.blocks, t.keyMap, x) :: x == alone
  }

  lemma FirstIsBeside(t: Tables, t': Tables, n: nat, id: BlockId, alone: BlockId)
    requires n in {2, 3} && Outcome(t, t', Alone(true), [], false, false, alone) && Waiting(t, n, id)
    ensures Beside(t', n, id, alone)
  {
    BlockFacts(n);
    OutcomeShows(t, t', Alone(true), false, false, alone);
    hide Alone, Both;
    assert !Hit(Alone(true), []);
  }

  lemma NotRestored(t: Tables, n: nat, id: BlockId)
    requires n in {2, 3} && Waiting(t, n, id)
    ensures !Restorable(t, Alone(true))
  {
    BlockFacts(n);
    hide Alone, Both;
  }

  // The first load is compiled alone besides, and its literal written: its block is deleted, and the literal noted.
  method NoteFirst(args: JitArgs, endsBlock: Decoding) returns (cache: BlockCache, id: BlockId)
    requires args.literalOptimizations && args.Clamped().maxBlockSize > 1 && Decoded(endsBlock)
    ensures fresh(cache) && fresh(cache.memory) && Ready(cache, args.Clamped(), endsBlock) && Value(cache.mem, LITERAL) == ONE
    ensures Waiting(cache.State(), Size(cache.args), id) && cache.invalidLiterals == {CODE_LOCAL + LITERAL}
  {
    hide Idle, Both, Alone, Outcome, CodeOk, Value, Invalidated, NoLiveDepends, NotedAll, Store, Live, Owned, Decoded, Waiting,
      Beside;
    cache, id := RetireBoth(args, endsBlock);
    ghost var n, t0 := Size(cache.args), cache.State();
    NotRestored(t0, n, id);
    WaitingIsIdle(t0, n, id);
    var alone := CompileAlone(cache, true, cache.args, endsBlock);
    ghost var t := cache.State();
    FirstIsBeside(t0, t, n, id, alone);
    StoreKeepsCode(cache.mem, LITERAL, ONE);
    Overwrite(cache, LITERAL, ONE);
    BothWaits(t, cache.State(), n, id, alone);
  }

  lemma WaitingIsIdle(t: Tables, n: nat, id: BlockId)
    requires n in {2, 3} && Waiting(t, n, id)
    ensures t.keyMap == map[]
  {
  }

  lemma BothWaits(t: Tables, t': Tables, n: nat, id: BlockId, alone: BlockId)
    requires n in {2, 3} && Beside(t, n, id, alone) && Owned(t'.blocks, t'.keyMap, t'.pool)
    requires Invalidated(t, t', CODE_LOCAL + LITERAL) && NoLiveDepends(t'.blocks, t'.keyMap, CODE_LOCAL + LITERAL)
    ensures Waiting(t', n, id) && NotedAll(t, t', CODE_LOCAL + LITERAL) == {CODE_LOCAL + LITERAL}
  {
    BlockFacts(n);
    hide Both, Alone, Invalidated, NoLiveDepends, NotedAll, Owned;
    FoldedIsDeleted(t, t', CODE_LOCAL + LITERAL, alone);
    PoolKnown(t'.blocks, t'.keyMap, t'.pool);
  }

  lemma NotRight(b: Block, n: nat, mem: Memory)
    requires n in {2, 3} && b == Restored(Both(n, LITERAL), Both(n, OTHER_LITERAL)) && Value(mem, LITERAL) == ONE
    ensures !Right(b, mem) && b.literals == [CODE_LOCAL + LITERAL] && b.literalWords == [ZERO]
  {
    var bases := LiteralBases(b.literals);
    assert bases[0] == CODE_LOCAL + LITERAL && b.literalWords[0] == ZERO;
    assert (bases[0] + 0, b.literalWords[0][0]) in BytesAt(bases, b.literalWords);
    assert Read(mem, CODE_LOCAL + LITERAL) == Value(mem, LITERAL)[0];
  }

  /**
    Folded literals are compared by their values, not their addresses. Here a block with two literal
    loads folds the first and leaves the second, known to be written, alone; compiling it finds
    native code memory full, and the reset forgets that it is. The block is retired, the first
    literal is written, and the same code now folds the second, of the same value: the old block,
    with the old value of the first literal, is live again. All traces end at a return, or at the
    size of a block.
  */
  method OtherLiteralRestored(args: JitArgs, endsBlock: Decoding) returns (cache: BlockCache, id: BlockId)
    requires args.literalOptimizations && args.maxBlockSize > 1 && Decoded(endsBlock)
    ensures fresh(cache) && cache.args == args.Clamped() && cache.Inv() && !cache.Sound()
    ensures Live(cache.blocks, cache.keyMap, id)
    ensures cache.blocks[id].literals == [CODE_LOCAL + LITERAL] && cache.blocks[id].literalWords == [ZERO]
    ensures Value(cache.mem, LITERAL) == ONE
  {
    hide Idle, Along, BlockCache.Inv, BlockCache.Sound, Both, Outcome, CodeOk, Value, Live, Decoded, MayRestore, Right, Restored,
      Waiting;
    cache, id := NoteFirst(args, endsBlock);
    ghost var n, t := Size(cache.args), cache.State();
    WaitingIsIdle(t, n, id);
    TraceBoth(cache, LITERAL);
    BlockFacts(n);
    ghost var b := Both(n, OTHER_LITERAL);
    SizeFits(cache, b);
    WaitingRestores(t, n, id);
    var restored: bool;
    restored, id := Finish(cache, b, 2 * n, false);
    OutcomeRestored(t, cache.State(), b, [], false, restored, id);
    OutcomeShows(t, cache.State(), b, false, restored, id);
    NotRight(StagedBlock(t, b, restored, id), n, cache.mem);
  }

  lemma WaitingRestores(t: Tables, n: nat, id: BlockId)
    requires n in {2, 3} && Waiting(t, n, id)
    ensures Restorable(t, Both(n, OTHER_LITERAL)) && t.pool[Both(n, OTHER_LITERAL).Hashed()] == id
    ensures id in t.blocks && t.blocks[id] == Both(n, LITERAL)
  {
    BlockFacts(n);
    hide Both;
  }
}
