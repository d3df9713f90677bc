/**
  Publishing a trace, resetting the cache and removing remapped code (src/ARMJIT.cpp): how the
  steps change the owners, the listing and what is live.
*/
module Publication {
  import opened CodeIndex
  import opened CompiledBlocks
  import opened TraceRecording

  // -------- publication --------

  lemma TakeFromPool(blocks: Blocks, keyMap: KeyMap, pool: Pool, h: seq<Word>, trace: Block)
    requires Owned(blocks, keyMap, pool) && h in pool && blocks[pool[h]].Key() == trace.Key() && trace.Key() !in keyMap
    ensures var id := pool[h];
      && OwnedBut(blocks[id := Restored(blocks[id], trace)], keyMap, pool - {h}, id)
      && SameLive(blocks, keyMap, blocks[id := Restored(blocks[id], trace)], keyMap)
  {
    var id := pool[h];
    assert Pooled(blocks, pool, id) && !Live(blocks, keyMap, id);
    var blocks' := blocks[id := Restored(blocks[id], trace)];
    forall x | x in blocks' && x != id ensures Live(blocks', keyMap, x) <==> !Pooled(blocks', pool - {h}, x) {
      assert Live(blocks, keyMap, x) <==> !Pooled(blocks, pool, x);
    }
  }

  lemma DropFromPool(blocks: Blocks, keyMap: KeyMap, pool: Pool, h: seq<Word>)
    requires Owned(blocks, keyMap, pool) && h in pool
    ensures Owned(blocks - {pool[h]}, keyMap, pool - {h}) && SameLive(blocks, keyMap, blocks - {pool[h]}, keyMap)
  {
    var id := pool[h];
    assert Pooled(blocks, pool, id) && !Live(blocks, keyMap, id);
    var blocks' := blocks - {id};
    forall x | x in blocks' ensures Live(blocks', keyMap, x) <==> !Pooled(blocks', pool - {h}, x) {
      assert Live(blocks, keyMap, x) <==> !Pooled(blocks, pool, x);
    }
  }

  lemma AllocateBlock(blocks: Blocks, keyMap: KeyMap, pool: Pool, id: BlockId, b: Block)
    requires Owned(blocks, keyMap, pool) && id !in blocks && b.Key() !in keyMap && b.Hashed() !in pool
    ensures OwnedBut(blocks[id := b], keyMap, pool, id) && SameLive(blocks, keyMap, blocks[id := b], keyMap)
  {
    var blocks' := blocks[id := b];
    forall x | x in blocks' && x != id ensures Live(blocks', keyMap, x) <==> !Pooled(blocks', pool, x) {
      assert Live(blocks, keyMap, x) <==> !Pooled(blocks, pool, x);
    }
  }

  // Block id has become live besides the ones that were.
  ghost predicate OnlyAdded(blocks: Blocks, keyMap: KeyMap, blocks': Blocks, keyMap': KeyMap, id: BlockId) {
    && !Live(blocks, keyMap, id)
    && (forall x :: Live(blocks', keyMap', x) <==> Live(blocks, keyMap, x) || x == id)
    && (forall x | Live(blocks, keyMap, x) :: blocks'[x] == blocks[x])
  }

  lemma OwnIsOwned(blocks: Blocks, keyMap: KeyMap, pool: Pool, id: BlockId)
    requires OwnedBut(blocks, keyMap, pool, id)
    ensures Owned(blocks, keyMap[blocks[id].Key() := id], pool)
    ensures OnlyAdded(blocks, keyMap, blocks, keyMap[blocks[id].Key() := id], id)
  {
    var keyMap' := keyMap[blocks[id].Key() := id];
    forall x | x in blocks && x != id ensures Live(blocks, keyMap', x) <==> Live(blocks, keyMap, x) {
    }
  }

  // The listing with the first ranges of block id added.
  ghost predicate ListingMore(listing: Listing, listing': Listing, id: BlockId, b: Block, added: seq<Range>) {
    && (forall x, r :: (x, r) in listing' <==> (x, r) in listing || (x == id && r in added))
    && (forall k | k in listing :: k in listing' && listing'[k] == listing[k])
    && (forall r | r in added :: r in b.masks && listing'[(id, r)] == b.masks[r])
  }

  ghost predicate NotListed(listing: Listing, id: BlockId) {
    forall r :: (id, r) !in listing
  }

  lemma ListingMoreNone(listing: Listing, id: BlockId, b: Block)
    ensures ListingMore(listing, listing, id, b, [])
  {
  }

  lemma ListingMoreNext(listing: Listing, listing': Listing, id: BlockId, b: Block, ranges: nat, j: nat)
    requires j < |b.ranges| && FootprintOk(b, ranges) && NotListed(listing, id)
    requires ListingMore(listing, listing', id, b, b.ranges[..j])
    ensures b.ranges[j] in b.masks && b.ranges[j] < ranges && MaskOk(b.ranges[j], b.masks[b.ranges[j]])
    ensures (id, b.ranges[j]) !in listing'
    ensures ListingMore(listing, listing'[(id, b.ranges[j]) := b.masks[b.ranges[j]]], id, b, b.ranges[..j + 1])
  {
    assert b.ranges[j] in b.ranges && b.ranges[j] !in b.ranges[..j];
    assert b.ranges[..j + 1] == b.ranges[..j] + [b.ranges[j]];
  }

  lemma ListingMoreAll(blocks: Blocks, keyMap: KeyMap, keyMap': KeyMap, listing: Listing, listing': Listing, id: BlockId, ranges: nat)
    requires ListingOk(blocks, keyMap, listing) && OnlyAdded(blocks, keyMap, blocks, keyMap', id)
    requires id in blocks && FootprintOk(blocks[id], ranges)
    requires ListingMore(listing, listing', id, blocks[id], blocks[id].ranges)
    ensures ListingOk(blocks, keyMap', listing')
  {
    forall k | k in listing' ensures listing'[k] == blocks[k.0].masks[k.1] {
      if k in listing {
        assert listing'[k] == listing[k];
      } else {
        assert k == (id, k.1) && (id, k.1) in listing';
        assert k.1 in blocks[id].ranges;
      }
    }
  }

  // Exactly the blocks that depend on one of the addresses have stopped being live.
  ghost predicate Swept(t: Tables, t': Tables, log: seq<Local>) {
    && Narrowed(t.blocks, t.keyMap, t'.blocks, t'.keyMap) && Shed(t, t', set a | a in log)
    && (forall x | Gone(t, t', x) :: exists j | 0 <= j < |log| :: t.blocks[x].Depends(log[j]))
    && NoneTouched(t'.blocks, t'.keyMap, log)
  }

  lemma SweptNone(t: Tables)
    ensures Swept(t, t, [])
  {
  }

  lemma SweptNext(t0: Tables, t1: Tables, t2: Tables, log: seq<Local>, j: nat)
    requires j < |log| && Swept(t0, t1, log[..j])
    requires Invalidated(t1, t2, log[j]) && NoLiveDepends(t2.blocks, t2.keyMap, log[j])
    ensures Swept(t0, t2, log[..j + 1])
  {
    var log' := log[..j + 1];
    assert log' == log[..j] + [log[j]];
    ShedMore(t0, t1, (set a | a in log[..j]), (set a | a in log'));
    ShedMore(t1, t2, {log[j]}, (set a | a in log'));
    ShedTwice(t0, t1, t2, (set a | a in log'));
    hide Shed, NoLiveDepends, Block.Depends;
    forall x | Gone(t0, t2, x) ensures exists i | 0 <= i < |log'| :: t0.blocks[x].Depends(log'[i]) {
      if Live(t1.blocks, t1.keyMap, x) {
        assert t0.blocks[x].Depends(log'[j]);
      } else {
        var i :| 0 <= i < j && t0.blocks[x].Depends(log[..j][i]);
        assert log'[i] == log[..j][i];
      }
    }
    TouchedOneMore(t1, t2, log[..j], log[j]);
  }

  // Whether a block depends on something the log has written.
  ghost predicate Hit(b: Block, log: seq<Local>) {
    exists j | 0 <= j < |log| :: b.Depends(log[j])
  }

  // What publication does to the live blocks: the new one joins them if and only if the trace
  // did not write what it depends on.
  lemma SweptOnlyNew(blocks0: Blocks, keyMap0: KeyMap, t1: Tables, t2: Tables, id: BlockId, log: seq<Local>)
    requires NoneTouched(blocks0, keyMap0, log) && OnlyAdded(blocks0, keyMap0, t1.blocks, t1.keyMap, id)
    requires id in t1.blocks && Swept(t1, t2, log)
    ensures forall x | Gone(t1, t2, x) :: x == id
    ensures if Hit(t1.blocks[id], log) then SameLive(blocks0, keyMap0, t2.blocks, t2.keyMap)
      else OnlyAdded(blocks0, keyMap0, t2.blocks, t2.keyMap, id)
  {
    hide Shed;
    forall x | Live(blocks0, keyMap0, x) ensures Live(t2.blocks, t2.keyMap, x) {
      assert Live(t1.blocks, t1.keyMap, x);
      forall j | 0 <= j < |log| ensures !t1.blocks[x].Depends(log[j]) {
        assert NoLiveDepends(blocks0, keyMap0, log[j]);
      }
    }
    if Hit(t1.blocks[id], log) {
      var j :| 0 <= j < |log| && t1.blocks[id].Depends(log[j]);
      assert NoLiveDepends(t2.blocks, t2.keyMap, log[j]);
      assert !Live(t2.blocks, t2.keyMap, id);
    } else {
      assert Live(t1.blocks, t1.keyMap, id);
    }
  }

  // What is published for a trace: its own recording, or a candidate from the pool.
  ghost predicate Stands(b: Block, trace: Block) {
    b.Key() == trace.Key() && b.masks == trace.masks
  }

  lemma RestoredStands(candidate: Block, trace: Block)
    requires MayRestore(candidate, trace)
    ensures Stands(Restored(candidate, trace), trace)
  {
  }

  lemma RestoredOk(blocks: Blocks, ranges: nat, args: JitArgs, next: BlockId, id: BlockId, trace: Block)
    requires AllBlocksOk(blocks, ranges, args, next) && id in blocks
    ensures AllBlocksOk(blocks[id := Restored(blocks[id], trace)], ranges, args, next)
  {
    hide BlockOk, Allowed;
    RestoredBlockOk(blocks[id], trace, ranges, args);
  }

  lemma RestoredBlockOk(b: Block, trace: Block, ranges: nat, args: JitArgs)
    requires BlockOk(b, ranges) && Allowed(b, args)
    ensures BlockOk(Restored(b, trace), ranges) && Allowed(Restored(b, trace), args)
  {
    hide RangesOfPath, StartOk, MaskOk, FetchWidth;
    var b' := Restored(b, trace);
    assert FootprintOk(b', ranges) by {
      assert Sources(b') == Sources(b);
      hide PathOk;
    }
    assert InLine(b') <==> InLine(b);
  }

  /** What a trace has recorded is still in memory if the log does not hit it. */
  lemma UnhitIsCoherent(trace: Block, mem: Memory, log: seq<Local>, ranges: nat)
    requires FootprintOk(trace, ranges) && FreshOrLogged(trace, mem, log) && !Hit(trace, log)
    ensures Coherent(trace, mem)
  {
    forall x | x in Sources(trace) ensures Read(mem, x.0) == x.1 {
      assert trace.Depends(x.0);
      forall j | 0 <= j < |log| ensures GranuleOf(log[j]) != GranuleOf(x.0) {
        SameGranuleSameRange(log[j], x.0);
      }
    }
  }

  /** A candidate that was traced along the path of the new trace can be used for it. */
  lemma SamePathIsRight(candidate: Block, trace: Block, mem: Memory, log: seq<Local>, ranges: nat)
    requires BlockOk(candidate, ranges) && BlockOk(trace, ranges) && MayRestore(candidate, trace) && SamePath(candidate, trace)
    requires FreshOrLogged(trace, mem, log) && (trace.hasRemapDependency <==> Embeds(trace))
    ensures candidate.startAddrLocal == trace.startAddrLocal
    ensures !Hit(trace, log) ==> Right(Restored(candidate, trace), mem)
  {
    SamePathSameSources(candidate, trace);
    var b := Restored(candidate, trace);
    assert Sources(b) == Sources(candidate);
    assert Embeds(b) <==> Embeds(trace);
    if !Hit(trace, log) {
      UnhitIsCoherent(trace, mem, log, ranges);
    }
  }

  /** Without followed branches and folded literals, so can every candidate that passes the comparison. */
  lemma PlainIsRight(candidate: Block, trace: Block, mem: Memory, log: seq<Local>, ranges: nat)
    requires BlockOk(candidate, ranges) && BlockOk(trace, ranges) && MayRestore(candidate, trace)
    requires InLine(candidate) && InLine(trace) && candidate.literals == trace.literals == []
    requires FreshOrLogged(trace, mem, log) && (trace.hasRemapDependency <==> Embeds(trace))
    ensures candidate.startAddrLocal == trace.startAddrLocal
    ensures !Hit(trace, log) ==> Right(Restored(candidate, trace), mem)
  {
    InLineSamePath(candidate, trace, ranges);
    SamePathIsRight(candidate, trace, mem, log, ranges);
  }

  lemma NewIsRight(trace: Block, mem: Memory, log: seq<Local>, ranges: nat)
    requires BlockOk(trace, ranges) && FreshOrLogged(trace, mem, log) && (trace.hasRemapDependency <==> Embeds(trace))
    ensures !Hit(trace, log) ==> Right(trace, mem)
  {
    if !Hit(trace, log) {
      UnhitIsCoherent(trace, mem, log, ranges);
    }
  }

  // After publication the blocks that were right are, and the new one is if it is not called stale.
  lemma PublishedRight(blocks0: Blocks, keyMap0: KeyMap, blocks: Blocks, keyMap: KeyMap, mem: Memory, stale: set<BlockId>,
                       id: BlockId, b: Block, hit: bool)
    requires AllRight(blocks0, keyMap0, mem, stale) && !Live(blocks0, keyMap0, id)
    requires if hit then SameLive(blocks0, keyMap0, blocks, keyMap)
      else OnlyAdded(blocks0, keyMap0, blocks, keyMap, id) && id in blocks && blocks[id] == b
    ensures AllRight(blocks, keyMap, mem, if Right(b, mem) then stale - {id} else stale + {id})
    ensures stale == {} ==> (AllRight(blocks, keyMap, mem, {}) <==> hit || Right(b, mem))
  {
    hide Right;
    if !hit {
      assert Live(blocks, keyMap, id);
    }
  }

  // The pool has a candidate for the trace's words that passes the comparison.
  predicate Restorable(t: Tables, trace: Block) {
    var h := trace.Hashed();
    h in t.pool && t.pool[h] in t.blocks && MayRestore(t.blocks[t.pool[h]], trace)
  }

  // The block that is published for the trace.
  function StagedBlock(t: Tables, trace: Block, restored: bool, id: BlockId): Block {
    if restored && id in t.blocks then Restored(t.blocks[id], trace) else trace
  }

  // The block is live and found through a slot of the fast table.
  ghost predicate Shows(t: Tables, id: BlockId, b: Block, slot: nat) {
    && Live(t.blocks, t.keyMap, id) && t.blocks[id] == b && slot < |t.fast|
    && t.fast[slot] == FastEntry(MakeLookupTag(b.startAddr, b.num, b.thumb), id)
  }

  /**
    The tables before and after a publication: the pool's candidate is used exactly if it passes
    the comparison. The block is live afterwards, and found through the slot of the trace, exactly
    if the trace has not written anything it depends on; the other blocks stay as they were, unless
    native code memory was full.
  */
  ghost predicate Outcome(t: Tables, t': Tables, trace: Block, log: seq<Local>, full: bool, restored: bool, id: BlockId) {
    && (restored <==> Restorable(t, trace))
    && (restored ==> id == t.pool[trace.Hashed()]) && (!restored && !full ==> id !in t.blocks)
    && (restored || !full ==>
         if Hit(trace, log) then SameLive(t.blocks, t.keyMap, t'.blocks, t'.keyMap)
         else OnlyAdded(t.blocks, t.keyMap, t'.blocks, t'.keyMap, id))
    && (restored || !full ==> t.pool.Keys - {trace.Hashed()} <= t'.pool.Keys)
    && (full && !restored ==> forall x :: Live(t'.blocks, t'.keyMap, x) <==> x == id && !Hit(trace, log))
    && (!Hit(trace, log) ==> Shows(t', id, StagedBlock(t, trace, restored, id), trace.startAddrLocal / 2))
    && (forall x | x in t'.blocks && x != id :: !(full && !restored) && x in t.blocks && t'.blocks[x] == t.blocks[x])
  }

  lemma OutcomeRestored(t: Tables, t': Tables, trace: Block, log: seq<Local>, full: bool, restored: bool, id: BlockId)
    requires Outcome(t, t', trace, log, full, restored, id)
    ensures restored ==> trace.Hashed() in t.pool && id == t.pool[trace.Hashed()]
    ensures restored ==> id in t.blocks && MayRestore(t.blocks[id], trace) && StagedBlock(t, trace, restored, id) == Restored(t.blocks[id], trace)
    ensures (restored <==> Restorable(t, trace)) && (!restored ==> StagedBlock(t, trace, restored, id) == trace)
  {
    hide MayRestore, OnlyAdded, SameLive, Shows, Hit;
  }

  lemma OutcomeShows(t: Tables, t': Tables, trace: Block, full: bool, restored: bool, id: BlockId)
    requires Outcome(t, t', trace, [], full, restored, id)
    ensures id in t'.blocks && Live(t'.blocks, t'.keyMap, id) && t'.blocks[id] == StagedBlock(t, trace, restored, id)
    ensures trace.startAddrLocal / 2 < |t'.fast|
    ensures var b := t'.blocks[id]; t'.fast[trace.startAddrLocal / 2] == FastEntry(MakeLookupTag(b.startAddr, b.num, b.thumb), id)
    ensures forall x | x in t'.blocks && x != id :: !(full && !restored) && x in t.blocks && t'.blocks[x] == t.blocks[x]
    ensures restored || !full ==> t.pool.Keys - {trace.Hashed()} <= t'.pool.Keys
    ensures !restored && !full ==> id !in t.blocks
  {
    hide MakeLookupTag, OnlyAdded, SameLive;
    assert !Hit(trace, []);
  }

  lemma TraceIsAllowed(trace: Block, pipeline: seq<Fetched>, args: JitArgs)
    requires |pipeline| == 2 && (!args.Follows() ==> AheadInLine(trace, pipeline))
    requires !args.literalOptimizations ==> trace.literals == []
    ensures Allowed(trace, args)
  {
  }

  lemma PlainAgrees(blocks: Blocks, ranges: nat, args: JitArgs, next: BlockId, id: BlockId, trace: Block, mem: Memory, log: seq<Local>)
    requires AllBlocksOk(blocks, ranges, args, next) && id in blocks && args.Plain()
    requires BlockOk(trace, ranges) && Allowed(trace, args) && MayRestore(blocks[id], trace)
    requires FreshOrLogged(trace, mem, log) && (trace.hasRemapDependency <==> Embeds(trace))
    ensures Restored(blocks[id], trace).startAddrLocal == trace.startAddrLocal
    ensures !Hit(trace, log) ==> Right(Restored(blocks[id], trace), mem)
  {
    hide BlockOk, MayRestore, FreshOrLogged, Embeds, Right, Hit, InLine;
    BlockOfAll(blocks, ranges, args, next, id);
    PlainIsRight(blocks[id], trace, mem, log, ranges);
  }

  // Right blocks stay so; the staged one is not live.
  lemma StagedIsRight(blocks0: Blocks, keyMap0: KeyMap, t1: Tables, id: BlockId, mem: Memory, stale: set<BlockId>)
    requires SameLive(blocks0, keyMap0, t1.blocks, t1.keyMap) && AllRight(t1.blocks, t1.keyMap, mem, stale)
    requires OwnedBut(t1.blocks, t1.keyMap, t1.pool, id)
    ensures AllRight(blocks0, keyMap0, mem, stale) && !Live(blocks0, keyMap0, id)
  {
    hide Right;
  }

  lemma SweptSheds(t: Tables, t': Tables, log: seq<Local>)
    requires Swept(t, t', log)
    ensures Shed(t, t', set a | a in log) && t.pool.Keys <= t'.pool.Keys
    ensures forall x | x in t'.blocks :: x in t.blocks && t'.blocks[x] == t.blocks[x]
  {
    hide NoneTouched;
  }

  lemma RemovedSheds(t: Tables, t': Tables, regions: seq<nat>)
    requires RemovedOnly(t, t', regions)
    ensures Shed(t, t', {})
  {
  }

  lemma NextIsNew(blocks: Blocks, ranges: nat, args: JitArgs, next: BlockId)
    requires AllBlocksOk(blocks, ranges, args, next)
    ensures next !in blocks
  {
    hide BlockOk, Allowed;
  }

  lemma PoolKnown(blocks: Blocks, keyMap: KeyMap, pool: Pool)
    requires Owned(blocks, keyMap, pool)
    ensures forall h | h in pool :: pool[h] in blocks && blocks[pool[h]].Hashed() == h
  {
  }

  lemma RestoredKey(candidate: Block, trace: Block)
    requires MayRestore(candidate, trace)
    ensures candidate.Key() == trace.Key()
  {
  }

  // The entry made for the trace after the replay: no block was found through its slot wrongly
  // before, so none is now exactly if the new block starts there.
  lemma EntryAfterReplay(fast: seq<FastEntry>, t2: Tables, t3: Tables, written: set<Local>, id: BlockId, local: Local, ranges: nat,
                         strays: set<nat>)
    requires local / 2 < |fast| && id in t2.blocks && BlockOk(t2.blocks[id], ranges) && local % 2 == 0
    requires t2.fast == Enter(fast, t2.blocks[id], id, local)
    requires Shed(t2, t3, written) && forall x | Gone(t2, t3, x) :: x == id
    requires strays == StraysAfter({}, t2.blocks[id], local) ==> FastOk(t3.fast, strays, t3.blocks, t3.keyMap)
    ensures strays == StraysAfter({}, t2.blocks[id], local) ==>
      (FastOk(t3.fast, {}, t3.blocks, t3.keyMap) <==> t2.blocks[id].startAddrLocal == local)
    ensures |t3.fast| == |fast|
    ensures Live(t3.blocks, t3.keyMap, id) ==> t3.fast[local / 2] == t2.fast[local / 2]
  {
    hide Shed, FastOk;
    BlockStartEven(t2.blocks[id], ranges);
    if t2.blocks[id].startAddrLocal / 2 != local / 2 {
      StrayStays(t2, t3, written, id, local, ranges);
    } else if strays == StraysAfter({}, t2.blocks[id], local) {
      assert strays == {};
    }
    SlotUnlessGone(t2, t3, written, id, local / 2);
  }

  lemma SlotUnlessGone(t: Tables, t': Tables, written: set<Local>, id: BlockId, s: nat)
    requires Shed(t, t', written) && (forall x | Gone(t, t', x) :: x == id) && s < |t.fast|
    ensures |t'.fast| == |t.fast|
    ensures Live(t'.blocks, t'.keyMap, id) ==> t'.fast[s] == t.fast[s]
  {
  }

  // An entry in another block's slot stays while only block id goes.
  lemma StrayStays(t: Tables, t': Tables, written: set<Local>, id: BlockId, local: Local, ranges: nat)
    requires Shed(t, t', written) && (forall x | Gone(t, t', x) :: x == id)
    requires id in t.blocks && BlockOk(t.blocks[id], ranges) && t.blocks[id].startAddrLocal / 2 != local / 2
    requires local / 2 < |t.fast| && t.fast[local / 2] == FastEntry(MakeLookupTag(t.blocks[id].startAddr, t.blocks[id].num, t.blocks[id].thumb), id)
    ensures !FastOk(t'.fast, {}, t'.blocks, t'.keyMap)
  {
    hide FootprintOk, PathOk, MakeLookupTag;
    var s := local / 2;
    assert t'.fast[s] == t.fast[s];
    assert t'.fast[s].tag != EMPTY_TAG && !EntryOk(t'.fast[s], s, t'.blocks, t'.keyMap);
  }

  lemma TraceIsBlock(trace: Block, pipeline: seq<Fetched>, mem: Memory, log: seq<Local>, ranges: nat, at: Localisation)
    requires TraceOk(trace, pipeline, mem, log, ranges, at) && trace.addrs != []
    ensures BlockOk(trace, ranges) && FreshOrLogged(trace, mem, log) && LogInRange(log, ranges)
    ensures (trace.hasRemapDependency <==> Embeds(trace)) && |pipeline| == 2
    ensures !Hit(trace, log) ==> Right(trace, mem)
  {
    hide FootprintOk, StartOk, PathOk, Embeds, FreshOrLogged, LogInRange, FetchOk, Right, Hit;
    NewIsRight(trace, mem, log, ranges);
  }

  lemma NotLiveNotListed(blocks: Blocks, keyMap: KeyMap, pool: Pool, listing: Listing, id: BlockId)
    requires OwnedBut(blocks, keyMap, pool, id) && ListingOk(blocks, keyMap, listing)
    ensures NotListed(listing, id)
  {
  }

  // The live blocks before a trace is published, when its block is allocated, listed, and after the replay.
  lemma PublicationEffect(blocks0: Blocks, keyMap0: KeyMap, blocks1: Blocks, keyMap1: KeyMap, t2: Tables, t3: Tables,
                          id: BlockId, trace: Block, log: seq<Local>)
    requires NoneTouched(blocks0, keyMap0, log) && SameLive(blocks0, keyMap0, blocks1, keyMap1)
    requires id in t2.blocks && OnlyAdded(blocks1, keyMap1, t2.blocks, t2.keyMap, id) && Swept(t2, t3, log)
    requires Stands(t2.blocks[id], trace)
    ensures forall x | Gone(t2, t3, x) :: x == id
    ensures if Hit(trace, log) then SameLive(blocks0, keyMap0, t3.blocks, t3.keyMap)
      else OnlyAdded(blocks0, keyMap0, t3.blocks, t3.keyMap, id) && id in t3.blocks && t3.blocks[id] == t2.blocks[id]
  {
    hide Shed, NoneTouched, Hit;
    UntouchedSameLive(blocks0, keyMap0, blocks1, keyMap1, log);
    SweptOnlyNew(blocks1, keyMap1, t2, t3, id, log);
    StandsHit(t2.blocks[id], trace, log);
    if !Hit(trace, log) {
      assert Live(t3.blocks, t3.keyMap, id);
    }
  }

  lemma UntouchedSameLive(blocks0: Blocks, keyMap0: KeyMap, blocks1: Blocks, keyMap1: KeyMap, log: seq<Local>)
    requires NoneTouched(blocks0, keyMap0, log) && SameLive(blocks0, keyMap0, blocks1, keyMap1)
    ensures NoneTouched(blocks1, keyMap1, log)
  {
    forall j | 0 <= j < |log| ensures NoLiveDepends(blocks1, keyMap1, log[j]) {
      assert NoLiveDepends(blocks0, keyMap0, log[j]);
    }
  }

  lemma StandsHit(b: Block, trace: Block, log: seq<Local>)
    requires Stands(b, trace)
    ensures Hit(b, log) <==> Hit(trace, log)
  {
    forall j | 0 <= j < |log| ensures b.Depends(log[j]) == trace.Depends(log[j]) {
    }
  }

  // Nothing is allocated, so writes remove nothing.
  lemma NothingStays(t: Tables, t': Tables, a: Local)
    requires Invalidated(t, t', a) && t.blocks == map[] && Owned(t'.blocks, t'.keyMap, t'.pool)
    ensures t'.blocks == map[] && t'.keyMap == map[] && t'.pool == map[]
  {
    KeysAreLive(t'.blocks, t'.keyMap, t'.pool);
    PoolKnown(t'.blocks, t'.keyMap, t'.pool);
  }

  // The only block has gone: it waits in the pool.
  lemma OnlyBlockWaits(t: Tables, t': Tables, written: set<Local>, id: BlockId, b: Block)
    requires Shed(t, t', written) && Narrowed(t.blocks, t.keyMap, t'.blocks, t'.keyMap) && Owned(t'.blocks, t'.keyMap, t'.pool)
    requires (forall x | x in t.blocks :: x == id) && Live(t.blocks, t.keyMap, id) && t.blocks[id] == b && !Folded(b, written)
    requires !Live(t'.blocks, t'.keyMap, id)
    ensures t'.keyMap == map[] && b.Hashed() in t'.pool && t'.pool[b.Hashed()] == id && id in t'.blocks && t'.blocks[id] == b
    ensures forall x | x in t'.blocks :: x == id
  {
    KeysAreLive(t'.blocks, t'.keyMap, t'.pool);
    PoolKnown(t'.blocks, t'.keyMap, t'.pool);
    assert Gone(t, t', id);
    assert b.Hashed() in t'.pool;
  }

  lemma WrittenIsGone(t: Tables, t': Tables, a: Local, id: BlockId)
    requires Invalidated(t, t', a) && NoLiveDepends(t'.blocks, t'.keyMap, a)
    requires id in t.blocks && t.blocks[id].Depends(a)
    ensures !Live(t'.blocks, t'.keyMap, id) && Shed(t, t', {a}) && Narrowed(t.blocks, t.keyMap, t'.blocks, t'.keyMap)
  {
    hide Shed;
  }

  ghost predicate NoneLive(blocks: Blocks, keyMap: KeyMap) {
    forall x :: !Live(blocks, keyMap, x)
  }

  lemma NoneLiveIsRight(blocks: Blocks, keyMap: KeyMap, mem: Memory, log: seq<Local>)
    requires NoneLive(blocks, keyMap)
    ensures AllRight(blocks, keyMap, mem, {}) && NoneTouched(blocks, keyMap, log)
  {
  }

  lemma EmptyMapNoneLive(blocks: Blocks, keyMap: KeyMap)
    requires keyMap == map[]
    ensures NoneLive(blocks, keyMap)
  {
  }

  lemma SameLiveNone(blocks: Blocks, keyMap: KeyMap, blocks': Blocks, keyMap': KeyMap)
    requires NoneLive(blocks, keyMap) && SameLive(blocks, keyMap, blocks', keyMap')
    ensures NoneLive(blocks', keyMap')
  {
  }

  lemma OwnedButHas(blocks: Blocks, keyMap: KeyMap, pool: Pool, id: BlockId)
    requires OwnedBut(blocks, keyMap, pool, id)
    ensures id in blocks && blocks[id].Key() !in keyMap
  {
  }

  lemma AddedKeepsLive(blocks: Blocks, keyMap: KeyMap, keyMap': KeyMap, id: BlockId)
    requires OnlyAdded(blocks, keyMap, blocks, keyMap', id)
    ensures Live(blocks, keyMap', id) && forall x | Live(blocks, keyMap, x) :: Live(blocks, keyMap', x)
  {
  }

  lemma AddedIsLive(blocks: Blocks, keyMap: KeyMap, blocks': Blocks, keyMap': KeyMap, id: BlockId)
    requires OnlyAdded(blocks, keyMap, blocks', keyMap', id)
    ensures Live(blocks', keyMap', id)
  {
  }

  lemma OnlyOneLive(blocks: Blocks, keyMap: KeyMap, blocks': Blocks, keyMap': KeyMap, id: BlockId, hit: bool)
    requires NoneLive(blocks, keyMap)
    requires if hit then SameLive(blocks, keyMap, blocks', keyMap') else OnlyAdded(blocks, keyMap, blocks', keyMap', id)
    ensures forall x :: Live(blocks', keyMap', x) <==> x == id && !hit
  {
  }

  // -------- reset --------

  // Listed are only live blocks whose key is still to be visited, in their own ranges.
  ghost predicate ListedByOnly(index: seq<AddressRange>, blocks: Blocks, keyMap: KeyMap, todo: set<Key>) {
    forall r | 0 <= r < |index| ::
      && (index[r].blocks == [] ==> index[r].code == {})
      && forall x | x in index[r].blocks :: Live(blocks, keyMap, x) && blocks[x].Key() in todo && r in blocks[x].ranges
  }

  lemma IndexedAreLive(index: seq<AddressRange>, pageRanges: nat, protectedPages: set<Page>, blocks: Blocks, keyMap: KeyMap,
                       listing: Listing, ranges: nat, args: JitArgs, next: BlockId)
    requires IndexOk(index, pageRanges, protectedPages, listing, ALL_CLOSED, 0) && ListingOk(blocks, keyMap, listing)
    requires AllBlocksOk(blocks, ranges, args, next)
    ensures ListedByOnly(index, blocks, keyMap, keyMap.Keys)
  {
    forall r, x | 0 <= r < |index| && x in index[r].blocks
      ensures Live(blocks, keyMap, x) && blocks[x].Key() in keyMap && r in blocks[x].ranges
    {
      assert (x, r) in listing && BlockOk(blocks[x], ranges);
    }
  }

  lemma VisitedOne(index: seq<AddressRange>, index': seq<AddressRange>, blocks: Blocks, keyMap: KeyMap, todo: set<Key>, k: Key)
    requires ListedByOnly(index, blocks, keyMap, todo) && k in keyMap && keyMap[k] in blocks
    requires EmptiedIn(index, index', blocks[keyMap[k]].ranges)
    ensures ListedByOnly(index', blocks, keyMap, todo - {k})
  {
  }

  ghost predicate EmptiedIn(index: seq<AddressRange>, index': seq<AddressRange>, rs: seq<Range>) {
    |index'| == |index| && forall r | 0 <= r < |index| :: index'[r] == if r in rs then EMPTY_RANGE else index[r]
  }

  lemma EmptiedNext(index: seq<AddressRange>, index': seq<AddressRange>, rs: seq<Range>, j: nat)
    requires j < |rs| && rs[j] < |index| && EmptiedIn(index, index', rs[..j])
    ensures EmptiedIn(index, index'[rs[j] := EMPTY_RANGE], rs[..j + 1])
  {
    assert rs[..j + 1] == rs[..j] + [rs[j]];
  }

  method EmptyRanges(index: seq<AddressRange>, rs: seq<Range>) returns (index': seq<AddressRange>)
    requires forall r | r in rs :: r < |index|
    ensures EmptiedIn(index, index', rs)
  {
    index' := index;
    for j := 0 to |rs|
      invariant EmptiedIn(index, index', rs[..j])
    {
      assert rs[j] in rs;
      EmptiedNext(index, index', rs, j);
      index' := index'[rs[j] := EMPTY_RANGE];
    }
    assert rs[..|rs|] == rs;
  }

  // Blocks are deleted once each: the rest are those whose key or words are still to be visited.
  ghost predicate Undeleted(blocks: Blocks, blocks': Blocks, keyMap: KeyMap, pool: Pool, keys: set<Key>, words: set<seq<Word>>) {
    forall x :: x in blocks' <==>
      (Live(blocks, keyMap, x) && blocks[x].Key() in keys) || (Pooled(blocks, pool, x) && blocks[x].Hashed() in words)
  }

  lemma AllUndeleted(blocks: Blocks, keyMap: KeyMap, pool: Pool)
    requires Owned(blocks, keyMap, pool)
    ensures Undeleted(blocks, blocks, keyMap, pool, keyMap.Keys, pool.Keys)
  {
  }

  lemma PooledDeleted(blocks: Blocks, blocks': Blocks, keyMap: KeyMap, pool: Pool, keys: set<Key>, words: set<seq<Word>>, h: seq<Word>)
    requires Owned(blocks, keyMap, pool) && Undeleted(blocks, blocks', keyMap, pool, keys, words) && h in words && h in pool
    ensures pool[h] in blocks' && Undeleted(blocks, blocks' - {pool[h]}, keyMap, pool, keys, words - {h})
  {
    assert Pooled(blocks, pool, pool[h]) && !Live(blocks, keyMap, pool[h]);
    forall x | x in blocks && x != pool[h] && Pooled(blocks, pool, x) ensures blocks[x].Hashed() != h {
    }
  }

  lemma LiveDeleted(blocks: Blocks, blocks': Blocks, keyMap: KeyMap, pool: Pool, keys: set<Key>, words: set<seq<Word>>, k: Key)
    requires Owned(blocks, keyMap, pool) && Undeleted(blocks, blocks', keyMap, pool, keys, words) && k in keys && k in keyMap
    ensures keyMap[k] in blocks' && Undeleted(blocks, blocks' - {keyMap[k]}, keyMap, pool, keys - {k}, words)
  {
    assert Live(blocks, keyMap, keyMap[k]) && !Pooled(blocks, pool, keyMap[k]);
    forall x | x in blocks && x != keyMap[k] && Live(blocks, keyMap, x) ensures blocks[x].Key() != k {
    }
  }

  lemma RangesInIndex(b: Block, ranges: nat)
    requires BlockOk(b, ranges)
    ensures forall r | r in b.ranges :: r < ranges
  {
  }

  lemma EmptiedLength(index: seq<AddressRange>, index': seq<AddressRange>, rs: seq<Range>)
    requires EmptiedIn(index, index', rs)
    ensures |index'| == |index|
  {
  }

  lemma NothingUndeleted(blocks: Blocks, blocks': Blocks, keyMap: KeyMap, pool: Pool)
    requires Undeleted(blocks, blocks', keyMap, pool, {}, {})
    ensures blocks' == map[]
  {
    assert blocks'.Keys == {};
  }

  lemma HeadIsElement(ids: seq<BlockId>)
    ensures ids == [] || ids[0] in ids
  {
  }

  // The cache with nothing in it.
  ghost predicate EmptyIndex(index: seq<AddressRange>) {
    forall r | 0 <= r < |index| :: index[r] == EMPTY_RANGE
  }

  lemma NothingListed(index: seq<AddressRange>, blocks: Blocks, keyMap: KeyMap)
    requires ListedByOnly(index, blocks, keyMap, {})
    ensures EmptyIndex(index)
  {
    forall r | 0 <= r < |index| ensures index[r] == EMPTY_RANGE {
      HeadIsElement(index[r].blocks);
    }
  }

  // The fast table filled with 0xFF bytes.
  function EmptyTable(n: nat): (fast: seq<FastEntry>)
    ensures |fast| == n && forall s | 0 <= s < n :: fast[s].tag == EMPTY_TAG
  {
    seq(n, _ => FastEntry(EMPTY_TAG, EMPTY_TAG))
  }

  lemma EmptyTablesOk(fast: seq<FastEntry>, ranges: nat, args: JitArgs)
    requires forall s | 0 <= s < |fast| :: fast[s].tag == EMPTY_TAG
    ensures FastOk(fast, {}, map[], map[]) && Owned(map[], map[], map[]) && ListingOk(map[], map[], map[])
    ensures AllBlocksOk(map[], ranges, args, 0)
  {
  }

  lemma EmptyIndexOk(index: seq<AddressRange>, pageRanges: nat)
    requires EmptyIndex(index) && pageRanges > 0
    ensures IndexOk(index, pageRanges, {}, map[], ALL_CLOSED, 0)
  {
  }

  // -------- remapping --------

  // The ranges of a region; it spans 2^27 bytes of local addresses.
  function RegionOfRange(r: Range): nat { r / REGION_RANGES }

  // The regions whose mapping can change, in the order they are walked; the last three are the DSi's.
  function WalkedRegions(dsi: bool): seq<nat> {
    [SHARED_WRAM, WRAM7] + if dsi then [NEW_SHARED_WRAM_A, NEW_SHARED_WRAM_B, NEW_SHARED_WRAM_C] else []
  }

  // The block's entry can stay mapped while something of it in the region is remapped.
  predicate RemapDependent(b: Block, region: nat) {
    b.hasRemapDependency || exists l | l in b.literals :: RegionOfRange(RangeOf(l)) == region
  }

  method IsRemapDependent(b: Block, region: nat) returns (dependent: bool)
    ensures dependent == RemapDependent(b, region)
  {
    dependent := b.hasRemapDependency;
    for j := 0 to |b.literals|
      invariant dependent == (b.hasRemapDependency || exists l | l in b.literals[..j] :: RegionOfRange(RangeOf(l)) == region)
    {
      if RegionOfRange(RangeOf(b.literals[j])) == region {
        return true;
      }
    }
    assert b.literals[..|b.literals|] == b.literals;
  }

  // The block has code or literals in a walked region it depends on in this way.
  ghost predicate Remappable(b: Block, regions: seq<nat>) {
    exists r | r in b.masks :: RegionOfRange(r) in regions && RemapDependent(b, RegionOfRange(r))
  }

  // Blocks have only been removed if they are remappable.
  ghost predicate RemovedOnly(t0: Tables, t: Tables, regions: seq<nat>) {
    && Narrowed(t0.blocks, t0.keyMap, t.blocks, t.keyMap) && Shed(t0, t, {})
    && forall x | Gone(t0, t, x) :: Remappable(t0.blocks[x], regions)
  }

  // No live block is dependent in the region through a range below `end`.
  ghost predicate CleanIn(blocks: Blocks, keyMap: KeyMap, region: nat, end: Range) {
    forall x, r: Range | Live(blocks, keyMap, x) && r in blocks[x].masks && RegionOfRange(r) == region && r < end ::
      !RemapDependent(blocks[x], region)
  }

  ghost predicate AllClean(blocks: Blocks, keyMap: KeyMap, regions: seq<nat>, ranges: nat) {
    forall n | 0 <= n < |regions| :: CleanIn(blocks, keyMap, regions[n], ranges)
  }

  ghost predicate ListClean(blocks: Blocks, ids: seq<BlockId>, region: nat) {
    forall p | 0 <= p < |ids| :: ids[p] in blocks && !RemapDependent(blocks[ids[p]], region)
  }

  lemma RemovedNone(t: Tables, regions: seq<nat>)
    ensures RemovedOnly(t, t, regions)
  {
  }

  lemma RemovedOneMore(t0: Tables, t1: Tables, t2: Tables, regions: seq<nat>, id: BlockId, r: Range)
    requires RemovedOnly(t0, t1, regions) && OnlyRemoved(t1.blocks, t1.keyMap, t2.blocks, t2.keyMap, id) && Shed(t1, t2, {})
    requires Live(t1.blocks, t1.keyMap, id) && r in t1.blocks[id].masks && RegionOfRange(r) in regions
    requires RemapDependent(t1.blocks[id], RegionOfRange(r))
    ensures RemovedOnly(t0, t2, regions)
  {
    hide RemapDependent;
    assert Remappable(t0.blocks[id], regions);
    hide Remappable;
    ShedTwice(t0, t1, t2, {});
    hide Shed;
  }

  lemma RemovalKeepsClean(blocks: Blocks, keyMap: KeyMap, blocks': Blocks, keyMap': KeyMap, regions: seq<nat>, region: nat,
                          end: Range, ranges: nat, id: BlockId)
    requires AllClean(blocks, keyMap, regions, ranges) && CleanIn(blocks, keyMap, region, end)
    requires OnlyRemoved(blocks, keyMap, blocks', keyMap', id)
    ensures AllClean(blocks', keyMap', regions, ranges) && CleanIn(blocks', keyMap', region, end)
  {
    hide RemapDependent;
    forall n | 0 <= n < |regions| ensures CleanIn(blocks', keyMap', regions[n], ranges) {
      assert CleanIn(blocks, keyMap, regions[n], ranges);
    }
  }

  lemma ListCleanMore(blocks: Blocks, ids: seq<BlockId>, i: nat, region: nat)
    requires i < |ids| && ListClean(blocks, ids[..i], region) && ids[i] in blocks && !RemapDependent(blocks[ids[i]], region)
    ensures ListClean(blocks, ids[..i + 1], region)
  {
    hide RemapDependent;
    assert ids[..i + 1] == ids[..i] + [ids[i]];
  }

  lemma ListCleanKept(blocks: Blocks, keyMap: KeyMap, blocks': Blocks, keyMap': KeyMap, ids: seq<BlockId>, id: BlockId, region: nat)
    requires OnlyRemoved(blocks, keyMap, blocks', keyMap', id) && ListClean(blocks, ids, region)
    requires forall p | 0 <= p < |ids| :: Live(blocks, keyMap, ids[p])
    requires id in blocks && RemapDependent(blocks[id], region)
    ensures ListClean(blocks', ids, region)
  {
    hide RemapDependent;
    forall p | 0 <= p < |ids| ensures ids[p] in blocks' && !RemapDependent(blocks'[ids[p]], region) {
      assert ids[p] != id && Live(blocks', keyMap', ids[p]);
    }
  }

  lemma RangeIsClean(blocks: Blocks, keyMap: KeyMap, listing: Listing, index: seq<AddressRange>, region: nat, r: Range)
    requires ListingOk(blocks, keyMap, listing) && ListsOk(index, listing) && r < |index|
    requires ListClean(blocks, index[r].blocks, region) && CleanIn(blocks, keyMap, region, r)
    ensures CleanIn(blocks, keyMap, region, r + 1)
  {
    hide RemapDependent;
    forall x | Live(blocks, keyMap, x) && r in blocks[x].masks ensures !RemapDependent(blocks[x], region) {
      assert (x, r) in listing && x in index[r].blocks;
    }
  }

  lemma CleanBelow(blocks: Blocks, keyMap: KeyMap, region: nat)
    ensures CleanIn(blocks, keyMap, region, region * REGION_RANGES)
  {
    hide RemapDependent;
  }

  lemma RegionIsClean(blocks: Blocks, keyMap: KeyMap, region: nat, end: Range, ranges: nat)
    requires CleanIn(blocks, keyMap, region, end) && (end >= ranges || end >= (region + 1) * REGION_RANGES)
    ensures CleanIn(blocks, keyMap, region, ranges)
  {
    hide RemapDependent;
  }

  // What has been kept is clean everywhere, so exactly the remappable blocks have gone.
  lemma ExactlyRemappable(t0: Tables, t: Tables, regions: seq<nat>, ranges: nat, args: JitArgs, next: BlockId)
    requires RemovedOnly(t0, t, regions) && AllClean(t.blocks, t.keyMap, regions, ranges)
    requires AllBlocksOk(t.blocks, ranges, args, next)
    ensures forall x :: Live(t.blocks, t.keyMap, x) <==> Live(t0.blocks, t0.keyMap, x) && !Remappable(t0.blocks[x], regions)
    ensures forall x | Live(t.blocks, t.keyMap, x) :: t.blocks[x] == t0.blocks[x]
  {
    hide RemapDependent, Shed, PathOk, StartOk, Allowed;
    forall x | Live(t.blocks, t.keyMap, x) ensures !Remappable(t.blocks[x], regions) {
      assert BlockOk(t.blocks[x], ranges);
      forall r | r in t.blocks[x].masks && RegionOfRange(r) in regions ensures !RemapDependent(t.blocks[x], RegionOfRange(r)) {
        var n :| 0 <= n < |regions| && regions[n] == RegionOfRange(r);
        assert CleanIn(t.blocks, t.keyMap, regions[n], ranges);
      }
    }
  }

  /**
    Which blocks go, in terms of what they were compiled from: those that embed an instruction in
    another window than their entry's and have code in a walked region, and those that folded a
    literal of a walked region.
  */
  lemma RemappableIff(b: Block, ranges: nat, mem: Memory, regions: seq<nat>)
    requires BlockOk(b, ranges) && Right(b, mem)
    ensures Remappable(b, regions) <==>
      || (Embeds(b) && exists r | r in b.masks :: RegionOfRange(r) in regions)
      || exists l | l in b.literals :: RegionOf(l) in regions
  {
    hide FootprintOk, StartOk, Coherent, Embeds;
    forall l | l in b.literals ensures RegionOfRange(RangeOf(l)) == RegionOf(l) && RangeOf(l) in b.masks {
      RegionOfAddress(l);
    }
    if l :| l in b.literals && RegionOf(l) in regions {
      assert RangeOf(l) in b.masks && RemapDependent(b, RegionOfRange(RangeOf(l)));
    }
    if Remappable(b, regions) {
      var r :| r in b.masks && RegionOfRange(r) in regions && RemapDependent(b, RegionOfRange(r));
    }
  }

  lemma RegionOfAddress(a: Local)
    ensures RegionOfRange(RangeOf(a)) == RegionOf(a)
  {
  }

  /** A block that stays has all its code of the walked regions in the window of its entry, and no literals there. */
  ghost predicate InEntryWindow(b: Block, regions: seq<nat>) {
    && (forall k | 0 <= k < |b.addrs| && k < |b.virtuals| && RegionOf(b.addrs[k]) in regions ::
          !OtherWindow(b.addrs[k], b.virtuals[k], b.startAddrLocal, b.startAddr))
    && (forall l | l in b.literals :: RegionOf(l) !in regions)
  }

  lemma KeptInWindow(b: Block, ranges: nat, mem: Memory, regions: seq<nat>)
    requires BlockOk(b, ranges) && Right(b, mem) && !Remappable(b, regions)
    ensures InEntryWindow(b, regions)
  {
    hide StartOk, Coherent, OtherWindow, PathOk, Remappable;
    RemappableIff(b, ranges, mem, regions);
    PathFacts(b, ranges);
    forall k | 0 <= k < |b.addrs| && RegionOf(b.addrs[k]) in regions
      ensures !OtherWindow(b.addrs[k], b.virtuals[k], b.startAddrLocal, b.startAddr)
    {
      InstructionCovered(b, ranges, k);
      RegionOfAddress(b.addrs[k]);
      assert RangeOf(b.addrs[k]) in b.masks;
      assert !Embeds(b);
    }
  }

  lemma InstructionCovered(b: Block, ranges: nat, k: nat)
    requires BlockOk(b, ranges) && k < |b.addrs|
    ensures b.Depends(b.addrs[k])
  {
    assert |b.words[k]| > 0;
    assert (b.addrs[k] + 0, b.words[k][0]) in BytesAt(b.addrs, b.words);
  }

  /** On the DSi, where every region with windows is walked: code in another window, or a literal. */
  lemma RemappableOnDsi(b: Block, ranges: nat, mem: Memory)
    requires BlockOk(b, ranges) && Right(b, mem)
    ensures Remappable(b, WalkedRegions(true)) <==> Embeds(b) || exists l | l in b.literals :: RegionOf(l) in WalkedRegions(true)
  {
    hide StartOk, Coherent, PathOk, Remappable;
    RemappableIff(b, ranges, mem, WalkedRegions(true));
    PathFacts(b, ranges);
    if Embeds(b) {
      var k :| 0 <= k < |b.addrs| && OtherWindow(b.addrs[k], b.virtuals[k], b.startAddrLocal, b.startAddr);
      InstructionCovered(b, ranges, k);
      RegionOfAddress(b.addrs[k]);
      assert RangeOf(b.addrs[k]) in b.masks;
    }
  }

  lemma AllKeptInWindow(blocks: Blocks, keyMap: KeyMap, ranges: nat, args: JitArgs, next: BlockId, mem: Memory, stale: set<BlockId>,
                        regions: seq<nat>)
    requires AllBlocksOk(blocks, ranges, args, next) && AllRight(blocks, keyMap, mem, stale)
    requires forall x | Live(blocks, keyMap, x) :: !Remappable(blocks[x], regions)
    ensures forall x | Live(blocks, keyMap, x) && x !in stale :: InEntryWindow(blocks[x], regions)
  {
    hide BlockOk, Right, Remappable, InEntryWindow, Allowed;
    forall x | Live(blocks, keyMap, x) && x !in stale ensures InEntryWindow(blocks[x], regions) {
      KeptInWindow(blocks[x], ranges, mem, regions);
    }
  }
}
