/**
  Compiled blocks and the tables that own and find them (src/ARMJIT.cpp, src/ARMJIT_Internal.h):
  key map, restore pool, index listing and fast table, as values.

  Blocks are named by the offset of their native entry, which no two blocks share. `Blocks`
  holds the allocated ones, so using a deleted block would be a failed lookup. Hashes are
  modelled by the hashed words themselves, that is, as collision free.
*/
module CompiledBlocks {
  import Bits
  import opened CodeIndex
  import opened Lists

  type Byte = int
  type Word = seq<Byte>
  type Memory = map<Local, Byte>

  function Read(mem: Memory, a: Local): Byte {
    if a in mem then mem[a] else 0
  }

  // A key of the block maps: CPU number, and start address with the Thumb bit.
  type Key = (nat, nat)

  /**
    A compiled block. `virtuals` and `addrs` are the virtual and the local addresses its
    instruction words came from; the source does not store them, the model keeps them to say what
    the block was compiled from.
  */
  datatype Block = Block(
    num: nat, thumb: bool, startAddr: nat, startAddrLocal: Local,
    virtuals: seq<nat>, addrs: seq<Local>, words: seq<Word>, literals: seq<Local>, literalWords: seq<Word>,
    ranges: seq<Range>, masks: map<Range, Mask>, hasRemapDependency: bool)
  {
    function Key(): Key { (num, startAddr + if thumb then 1 else 0) }

    // What the source hashes: halfwords are extended to words with zeroes.
    function Hashed(): (h: seq<Word>)
      ensures |h| == |words|
    {
      seq(|words|, k requires 0 <= k < |words| => Extended(words[k]))
    }

    // The distance from one instruction to the next.
    function Step(): nat { if thumb then 2 else 4 }

    predicate Depends(a: Local) {
      RangeOf(a) in masks && GranuleOf(a) in masks[RangeOf(a)]
    }
  }

  function Extended(w: Word): Word { if |w| < 4 then w + seq(4 - |w|, _ => 0) else w }

  // ARM9 fetches Thumb instructions in word pairs.
  function FetchWidth(num: nat, thumb: bool, virt: nat): nat {
    if thumb && (num != 0 || virt % 4 != 0) then 2 else 4
  }

  // A literal load reads the aligned word around its address.
  function LiteralBase(a: Local): Local { a / 4 * 4 }

  // The bytes found at each address when the words were read from there.
  ghost function BytesAt(addrs: seq<Local>, words: seq<Word>): set<(Local, Byte)>
    requires |addrs| == |words|
  {
    set k, i | 0 <= k < |addrs| && 0 <= i < |words[k]| :: (addrs[k] + i, words[k][i])
  }

  ghost function LiteralBases(literals: seq<Local>): (bases: seq<Local>)
    ensures |bases| == |literals|
  {
    seq(|literals|, k requires 0 <= k < |literals| => LiteralBase(literals[k]))
  }

  // Everything block b was compiled from.
  ghost function Sources(b: Block): set<(Local, Byte)>
    requires ShapeOk(b)
  {
    BytesAt(b.addrs, b.words) + BytesAt(LiteralBases(b.literals), b.literalWords)
  }

  ghost predicate ShapeOk(b: Block) {
    |b.addrs| == |b.words| && |b.literals| == |b.literalWords|
  }

  /** Every byte the block was compiled from is still in memory. */
  ghost predicate Coherent(b: Block, mem: Memory)
    requires ShapeOk(b)
  {
    forall x | x in Sources(b) :: Read(mem, x.0) == x.1
  }

  ghost predicate Logged(log: seq<Local>, a: Local) {
    exists j | 0 <= j < |log| :: GranuleOf(log[j]) == GranuleOf(a)
  }

  // Every byte is still in memory, or its granule has been written since the trace began.
  ghost predicate FreshOrLogged(b: Block, mem: Memory, log: seq<Local>)
    requires ShapeOk(b)
  {
    forall x | x in Sources(b) :: Read(mem, x.0) == x.1 || Logged(log, x.0)
  }

  /** Lookup tags (src/ARMJIT_Internal.h): address bit 1 makes room for the CPU, bit 0 for Thumb. */
  function MakeLookupTag(addr: nat, num: nat, thumb: bool): nat {
    addr / 4 * 4 + num * 2 + if thumb then 1 else 0
  }

  const EMPTY_TAG := 0xFFFF_FFFF

  datatype FastEntry = FastEntry(tag: nat, offset: BlockId)

  const EMPTY_ENTRY := FastEntry(EMPTY_TAG, 0)

  // What the start of a block or trace must satisfy: memory is mapped in whole ranges, so a local
  // address agrees with the virtual one in its low bits, and no code ends the address space.
  ghost predicate StartOk(num: nat, thumb: bool, addr: nat, local: Local, ranges: nat) {
    && num < 2 && addr % 2 == 0 && addr % 512 == local % 512
    && MakeLookupTag(addr, num, thumb) != EMPTY_TAG
    && RangeOf(local) < ranges
  }

  // The range list has no repetitions, its masks are its own, and they cover all sources.
  ghost predicate FootprintOk(b: Block, ranges: nat) {
    && ShapeOk(b) && Distinct(b.ranges)
    && (forall r :: r in b.ranges <==> r in b.masks)
    && (forall r | r in b.masks :: r < ranges && MaskOk(r, b.masks[r]))
    && (forall x | x in Sources(b) :: b.Depends(x.0))
  }

  const MAX_BLOCK_SIZE := 32

  // The path of a block: it was mapped in whole ranges, and without literals its range list is
  // that of its instructions, the range of the latest one last.
  ghost predicate PathOk(b: Block) {
    && |b.virtuals| == |b.addrs| == |b.words| <= MAX_BLOCK_SIZE
    && (b.addrs != [] ==> b.virtuals[0] == b.startAddr && b.addrs[0] == b.startAddrLocal)
    && (forall k | 0 <= k < |b.addrs| ::
          b.virtuals[k] % 512 == b.addrs[k] % 512 && |b.words[k]| == FetchWidth(b.num, b.thumb, b.virtuals[k]))
    && (forall j, k | 0 <= j < |b.addrs| && 0 <= k < |b.addrs| && RangeOf(b.virtuals[j]) == RangeOf(b.virtuals[k]) ::
          RangeOf(b.addrs[j]) == RangeOf(b.addrs[k]))
    && (b.literals == [] && b.addrs != [] ==> RangesOfPath(b.ranges, b.addrs))
    && (forall l | l in b.literals :: RangeOf(l) in b.masks)
  }

  ghost predicate RangesOfPath(ranges: seq<Range>, addrs: seq<Local>)
    requires addrs != []
  {
    && ranges != [] && ranges[|ranges| - 1] == RangeOf(addrs[|addrs| - 1])
    && (forall r | r in ranges :: exists k | 0 <= k < |addrs| :: RangeOf(addrs[k]) == r)
    && (forall k | 0 <= k < |addrs| :: RangeOf(addrs[k]) in ranges)
  }

  ghost predicate BlockOk(b: Block, ranges: nat) {
    && StartOk(b.num, b.thumb, b.startAddr, b.startAddrLocal, ranges)
    && FootprintOk(b, ranges) && PathOk(b) && b.addrs != []
  }

  // No branch has been followed.
  ghost predicate InLine(b: Block) {
    forall k | 0 <= k < |b.virtuals| :: b.virtuals[k] == b.startAddr + k * b.Step()
  }

  // -------- remappable windows --------

  function RegionOf(a: Local): nat { a / 0x800_0000 }

  const REGION_RANGES := 0x4_0000

  const SHARED_WRAM := 5
  const WRAM7 := 9
  const NEW_SHARED_WRAM_A := 15
  const NEW_SHARED_WRAM_B := 16
  const NEW_SHARED_WRAM_C := 17

  // The size of the windows in which a region can be mapped anew; NWRAM B and C can take the
  // place of half of the ARM7's private WRAM.
  function WindowSize(region: nat): nat {
    if region == SHARED_WRAM then 0x4000
    else if region == NEW_SHARED_WRAM_A then 0x1_0000
    else if region in {WRAM7, NEW_SHARED_WRAM_B, NEW_SHARED_WRAM_C} then 0x8000
    else 0
  }

  // An instruction in another window than the block's entry.
  predicate OtherWindow(local: Local, virt: nat, startAddrLocal: Local, startAddr: nat) {
    var size := WindowSize(RegionOf(local));
    size > 0 && (RegionOf(local) != RegionOf(startAddrLocal) || virt / size != startAddr / size)
  }

  ghost predicate Embeds(b: Block) {
    exists k | 0 <= k < |b.addrs| && k < |b.virtuals| :: OtherWindow(b.addrs[k], b.virtuals[k], b.startAddrLocal, b.startAddr)
  }

  /** The block is what it is taken for: memory has not changed under it, and its remap flag is its own. */
  ghost predicate Right(b: Block, mem: Memory) {
    ShapeOk(b) && Coherent(b, mem) && (b.hasRemapDependency <==> Embeds(b))
  }

  // The settings under which blocks are compiled; the cache is reset when they change.
  datatype JitArgs = JitArgs(maxBlockSize: nat, literalOptimizations: bool, branchOptimizations: bool, fastMemory: bool)
  {
    // A branch is only followed if another instruction fits behind it.
    predicate Follows() { branchOptimizations && maxBlockSize > 1 }

    // The size of a block is at least one instruction and at most what a trace has room for.
    function Clamped(): JitArgs {
      this.(maxBlockSize := if maxBlockSize < 1 then 1 else if maxBlockSize > MAX_BLOCK_SIZE then MAX_BLOCK_SIZE else maxBlockSize)
    }

    predicate Plain() { !literalOptimizations && !Follows() }
  }

  ghost predicate Allowed(b: Block, args: JitArgs) {
    (!args.Follows() ==> InLine(b)) && (!args.literalOptimizations ==> b.literals == [])
  }

  type Blocks = map<BlockId, Block>
  type KeyMap = map<Key, BlockId>
  type Pool = map<seq<Word>, BlockId>

  ghost predicate Live(blocks: Blocks, keyMap: KeyMap, id: BlockId) {
    id in blocks && blocks[id].Key() in keyMap && keyMap[blocks[id].Key()] == id
  }

  ghost predicate Pooled(blocks: Blocks, pool: Pool, id: BlockId) {
    id in blocks && blocks[id].Hashed() in pool && pool[blocks[id].Hashed()] == id
  }

  /** Every allocated block is owned by exactly one of the key map and the restore pool. */
  ghost predicate Owned(blocks: Blocks, keyMap: KeyMap, pool: Pool) {
    && (forall k | k in keyMap :: keyMap[k] in blocks && blocks[keyMap[k]].Key() == k)
    && (forall h | h in pool :: pool[h] in blocks && blocks[pool[h]].Hashed() == h)
    && (forall id | id in blocks :: Live(blocks, keyMap, id) <==> !Pooled(blocks, pool, id))
  }

  // Exactly the live blocks are listed, each in all its ranges with its masks.
  ghost predicate ListingOk(blocks: Blocks, keyMap: KeyMap, listing: Listing) {
    && (forall id, r :: (id, r) in listing <==> Live(blocks, keyMap, id) && r in blocks[id].masks)
    && (forall k | k in listing :: listing[k] == blocks[k.0].masks[k.1])
  }

  // The blocks listed in the index are allocated and have the listed masks.
  ghost predicate ListingKnown(blocks: Blocks, listing: Listing) {
    forall k | k in listing :: k.0 in blocks && k.1 in blocks[k.0].masks && listing[k] == blocks[k.0].masks[k.1]
  }

  // Every entry of the fast table that is neither empty nor astray leads to the live block it was
  // made for.
  ghost predicate FastOk(fast: seq<FastEntry>, strays: set<nat>, blocks: Blocks, keyMap: KeyMap) {
    forall s | 0 <= s < |fast| && s !in strays && fast[s].tag != EMPTY_TAG :: EntryOk(fast[s], s, blocks, keyMap)
  }

  ghost predicate EntryOk(entry: FastEntry, s: nat, blocks: Blocks, keyMap: KeyMap) {
    && Live(blocks, keyMap, entry.offset)
    && var b := blocks[entry.offset];
       b.startAddrLocal / 2 == s && entry.tag == MakeLookupTag(b.startAddr, b.num, b.thumb)
  }

  ghost predicate AllRight(blocks: Blocks, keyMap: KeyMap, mem: Memory, stale: set<BlockId>) {
    forall id | Live(blocks, keyMap, id) && id !in stale :: Right(blocks[id], mem)
  }

  // -------- the restore pool --------

  /** The comparison under which CompileBlock takes a block back instead of compiling. */
  predicate MayRestore(candidate: Block, trace: Block) {
    && candidate.Hashed() == trace.Hashed()
    && candidate.num == trace.num && candidate.thumb == trace.thumb && candidate.startAddr == trace.startAddr
    && candidate.literalWords == trace.literalWords
    && candidate.ranges == trace.ranges && candidate.masks == trace.masks
  }

  // The candidate was traced at the very addresses of the new trace.
  predicate SamePath(candidate: Block, trace: Block) {
    candidate.virtuals == trace.virtuals && candidate.addrs == trace.addrs && candidate.literals == trace.literals
  }

  // The block as it is used again for the trace.
  function Restored(candidate: Block, trace: Block): Block {
    candidate.(hasRemapDependency := trace.hasRemapDependency)
  }

  lemma SamePathSameSources(candidate: Block, trace: Block)
    requires ShapeOk(candidate) && ShapeOk(trace) && PathOk(candidate) && PathOk(trace)
    requires MayRestore(candidate, trace) && SamePath(candidate, trace)
    ensures Sources(candidate) == Sources(trace)
  {
    forall k | 0 <= k < |trace.words| ensures candidate.words[k] == trace.words[k] {
      assert candidate.Hashed()[k] == trace.Hashed()[k];
      SameExtended(candidate.words[k], trace.words[k]);
    }
    assert candidate.words == trace.words;
  }

  lemma SameExtended(v: Word, w: Word)
    requires |v| == |w| <= 4 && Extended(v) == Extended(w)
    ensures v == w
  {
    assert Extended(v)[..|v|] == v && Extended(w)[..|w|] == w;
  }

  // The instructions of a block without followed branches lie in two ranges of virtual addresses.
  lemma InLineRanges(b: Block, k: nat)
    requires InLine(b) && |b.virtuals| <= MAX_BLOCK_SIZE && k < |b.virtuals|
    ensures RangeOf(b.virtuals[0]) <= RangeOf(b.virtuals[k]) <= RangeOf(b.virtuals[|b.virtuals| - 1]) <= RangeOf(b.virtuals[0]) + 1
  {
    var n := |b.virtuals|;
    assert b.virtuals[0] == b.startAddr + 0 * b.Step();
    assert k * b.Step() <= (n - 1) * b.Step() <= 4 * 31;
  }

  // Where the range list places an instruction of such a block.
  lemma InLineAddress(b: Block, k: nat)
    requires PathOk(b) && InLine(b) && b.literals == [] && Distinct(b.ranges) && k < |b.addrs|
    ensures b.ranges != []
    ensures RangeOf(b.addrs[k]) ==
      if RangeOf(b.virtuals[k]) == RangeOf(b.virtuals[0]) then b.ranges[0] else b.ranges[|b.ranges| - 1]
  {
    var n := |b.addrs|;
    InLineRanges(b, k);
    var first, last := RangeOf(b.addrs[0]), RangeOf(b.addrs[n - 1]);
    forall r | r in b.ranges ensures r == first || r == last {
      var j :| 0 <= j < n && RangeOf(b.addrs[j]) == r;
      InLineRanges(b, j);
    }
    assert b.ranges[0] in b.ranges && first in b.ranges;
    var i :| 0 <= i < |b.ranges| && b.ranges[i] == first;
    assert i == 0;
  }

  /**
    Without followed branches and literals, what the comparison accepts was traced at the same
    addresses: the range list tells them, as there are at most 32 instructions.
  */
  lemma InLineSamePath(candidate: Block, trace: Block, ranges: nat)
    requires BlockOk(candidate, ranges) && BlockOk(trace, ranges) && MayRestore(candidate, trace)
    requires InLine(candidate) && InLine(trace) && candidate.literals == trace.literals == []
    ensures SamePath(candidate, trace) && candidate.startAddrLocal == trace.startAddrLocal
  {
    hide FootprintOk, PathOk, StartOk;
    assert |candidate.words| == |candidate.Hashed()| == |trace.Hashed()| == |trace.words|;
    PathFacts(candidate, ranges);
    PathFacts(trace, ranges);
    assert candidate.virtuals == trace.virtuals;
    forall k | 0 <= k < |trace.addrs| ensures candidate.addrs[k] == trace.addrs[k] {
      InLineAddress(candidate, k);
      InLineAddress(trace, k);
      FromRange(candidate.addrs[k]);
      FromRange(trace.addrs[k]);
    }
  }

  lemma PathFacts(b: Block, ranges: nat)
    requires BlockOk(b, ranges)
    ensures PathOk(b) && Distinct(b.ranges) && |b.virtuals| == |b.addrs| == |b.words| && b.addrs[0] == b.startAddrLocal
    ensures forall k | 0 <= k < |b.addrs| :: b.virtuals[k] % 512 == b.addrs[k] % 512
  {
  }

  lemma FromRange(a: Local)
    ensures a == 512 * RangeOf(a) + a % 512
  {
  }

  // -------- removing an owner --------

  // The allocated blocks after block id has been retired in favour of one with the same words.
  function RetireBlocks(blocks: Blocks, pool: Pool, id: BlockId): Blocks
    requires id in blocks
  {
    if blocks[id].Hashed() in pool then blocks - {pool[blocks[id].Hashed()]} else blocks
  }

  // Block id is allocated, and owned by neither the key map nor the pool; the others are.
  ghost predicate OwnedBut(blocks: Blocks, keyMap: KeyMap, pool: Pool, id: BlockId) {
    && id in blocks && blocks[id].Key() !in keyMap && !Pooled(blocks, pool, id)
    && (forall k | k in keyMap :: keyMap[k] in blocks && blocks[keyMap[k]].Key() == k)
    && (forall h | h in pool :: pool[h] in blocks && blocks[pool[h]].Hashed() == h)
    && (forall x | x in blocks && x != id :: Live(blocks, keyMap, x) <==> !Pooled(blocks, pool, x))
  }

  lemma RetireKeepsOwned(blocks: Blocks, keyMap: KeyMap, pool: Pool, id: BlockId)
    requires OwnedBut(blocks, keyMap, pool, id)
    ensures Owned(RetireBlocks(blocks, pool, id), keyMap, pool[blocks[id].Hashed() := id])
    ensures SameLive(blocks, keyMap, RetireBlocks(blocks, pool, id), keyMap)
  {
  }

  lemma UnownedByKey(blocks: Blocks, keyMap: KeyMap, pool: Pool, id: BlockId)
    requires Owned(blocks, keyMap, pool) && Live(blocks, keyMap, id)
    ensures OwnedBut(blocks, keyMap - {blocks[id].Key()}, pool, id)
    ensures OnlyRemoved(blocks, keyMap, blocks, keyMap - {blocks[id].Key()}, id)
  {
  }

  lemma RemovedSameLive(blocks0: Blocks, keyMap0: KeyMap, blocks1: Blocks, keyMap1: KeyMap, blocks2: Blocks, keyMap2: KeyMap, id: BlockId)
    requires OnlyRemoved(blocks0, keyMap0, blocks1, keyMap1, id) && SameLive(blocks1, keyMap1, blocks2, keyMap2)
    ensures OnlyRemoved(blocks0, keyMap0, blocks2, keyMap2, id)
  {
    hide Live;
  }

  lemma RetiredAreFewer(blocks: Blocks, pool: Pool, id: BlockId)
    requires id in blocks
    ensures forall x | x in RetireBlocks(blocks, pool, id) :: x in blocks && RetireBlocks(blocks, pool, id)[x] == blocks[x]
  {
  }

  lemma DeleteKeepsOwned(blocks: Blocks, keyMap: KeyMap, pool: Pool, id: BlockId)
    requires Owned(blocks, keyMap, pool) && Live(blocks, keyMap, id)
    ensures Owned(blocks - {id}, keyMap - {blocks[id].Key()}, pool)
    ensures OnlyRemoved(blocks, keyMap, blocks - {id}, keyMap - {blocks[id].Key()}, id)
  {
  }

  // Blocks that are live now were live before, and have not changed.
  ghost predicate Narrowed(blocks: Blocks, keyMap: KeyMap, blocks': Blocks, keyMap': KeyMap) {
    forall x | Live(blocks', keyMap', x) :: Live(blocks, keyMap, x) && blocks'[x] == blocks[x]
  }

  // Exactly block id has stopped being live.
  ghost predicate OnlyRemoved(blocks: Blocks, keyMap: KeyMap, blocks': Blocks, keyMap': KeyMap, id: BlockId) {
    && (forall x :: Live(blocks', keyMap', x) <==> Live(blocks, keyMap, x) && x != id)
    && (forall x | Live(blocks', keyMap', x) :: blocks'[x] == blocks[x])
  }

  /** The tables that own and find blocks. */
  datatype Tables = Tables(blocks: Blocks, keyMap: KeyMap, pool: Pool, fast: seq<FastEntry>)

  // Block x has stopped being live.
  ghost predicate Gone(t: Tables, t': Tables, x: BlockId) {
    x in t.blocks && Live(t.blocks, t.keyMap, x) && !Live(t'.blocks, t'.keyMap, x)
  }

  // The block has folded a literal at a written address.
  predicate Folded(b: Block, written: set<Local>) {
    exists l | l in b.literals :: l in written
  }

  /**
    What removals do to the tables: a block that goes is put into the pool, unless it folded a
    literal at a written address, and only the fast slots of blocks that go are cleared.
  */
  ghost predicate Shed(t: Tables, t': Tables, written: set<Local>) {
    && |t'.fast| == |t.fast| && t.pool.Keys <= t'.pool.Keys
    && (forall x | x in t'.blocks :: x in t.blocks && t'.blocks[x] == t.blocks[x])
    && (forall x | Gone(t, t', x) && !Folded(t.blocks[x], written) :: t.blocks[x].Hashed() in t'.pool)
    && (forall s | 0 <= s < |t.fast| && t'.fast[s] != t.fast[s] ::
          t'.fast[s] == EMPTY_ENTRY && exists x :: Gone(t, t', x) && t.blocks[x].startAddrLocal / 2 == s)
    && (forall x | Gone(t, t', x) :: !Entered(t'.fast, t.blocks[x], x))
  }

  // The fast table has the block's entry in its own slot.
  predicate Entered(fast: seq<FastEntry>, b: Block, id: BlockId) {
    var s := b.startAddrLocal / 2;
    s < |fast| && fast[s].tag != EMPTY_TAG && fast[s] == FastEntry(MakeLookupTag(b.startAddr, b.num, b.thumb), id)
  }

  // A live block is retired, or deleted because it folded the literal at a.
  lemma RemovalSheds(t: Tables, pool': Pool, fast': seq<FastEntry>, id: BlockId, delete: bool, a: Local)
    requires Live(t.blocks, t.keyMap, id) && t.blocks[id].startAddrLocal / 2 < |t.fast|
    requires delete ==> a in t.blocks[id].literals
    requires pool' == if delete then t.pool else t.pool[t.blocks[id].Hashed() := id]
    requires fast' == ClearOwn(t.fast, t.blocks[id], id) || fast' == Clear(t.fast, t.blocks[id].startAddrLocal / 2)
    ensures var blocks' := if delete then t.blocks - {id} else RetireBlocks(t.blocks, t.pool, id);
      OnlyRemoved(t.blocks, t.keyMap, blocks', t.keyMap - {t.blocks[id].Key()}, id) ==>
        Shed(t, Tables(blocks', t.keyMap - {t.blocks[id].Key()}, pool', fast'), if delete then {a} else {})
  {
    var blocks' := if delete then t.blocks - {id} else RetireBlocks(t.blocks, t.pool, id);
    var t' := Tables(blocks', t.keyMap - {t.blocks[id].Key()}, pool', fast');
    assert Gone(t, t', id);
    assert delete ==> Folded(t.blocks[id], {a});
  }

  lemma ShedMore(t: Tables, t': Tables, written: set<Local>, written': set<Local>)
    requires Shed(t, t', written) && written <= written'
    ensures Shed(t, t', written')
  {
    forall x | Gone(t, t', x) && !Folded(t.blocks[x], written') ensures !Folded(t.blocks[x], written) {
    }
  }

  lemma ShedTwice(t0: Tables, t1: Tables, t2: Tables, written: set<Local>)
    requires Shed(t0, t1, written) && Shed(t1, t2, written)
    requires Narrowed(t0.blocks, t0.keyMap, t1.blocks, t1.keyMap) && Narrowed(t1.blocks, t1.keyMap, t2.blocks, t2.keyMap)
    ensures Shed(t0, t2, written)
  {
    hide Folded;
    forall x | Gone(t0, t2, x) && !Folded(t0.blocks[x], written) ensures t0.blocks[x].Hashed() in t2.pool {
      assert Gone(t0, t1, x) || Gone(t1, t2, x);
    }
    forall s | 0 <= s < |t0.fast| && t2.fast[s] != t0.fast[s]
      ensures t2.fast[s] == EMPTY_ENTRY && exists x :: Gone(t0, t2, x) && t0.blocks[x].startAddrLocal / 2 == s
    {
      if t2.fast[s] != t1.fast[s] {
        var x :| Gone(t1, t2, x) && t1.blocks[x].startAddrLocal / 2 == s;
        assert Gone(t0, t2, x);
      } else {
        var x :| Gone(t0, t1, x) && t0.blocks[x].startAddrLocal / 2 == s;
        assert Gone(t0, t2, x);
      }
    }
  }

  // The listing without block id, or without its entries for some ranges.
  ghost predicate ListingWithout(listing: Listing, listing': Listing, id: BlockId) {
    && (forall x, r :: (x, r) in listing' <==> (x, r) in listing && x != id)
    && (forall k | k in listing' :: k in listing && listing'[k] == listing[k])
  }

  ghost predicate ListingLess(listing: Listing, listing': Listing, id: BlockId, gone: seq<Range>) {
    && (forall x, r :: (x, r) in listing' <==> (x, r) in listing && !(x == id && r in gone))
    && (forall k | k in listing' :: k in listing && listing'[k] == listing[k])
  }

  // Block id is listed in exactly the ranges rs.
  ghost predicate ListedIn(listing: Listing, id: BlockId, rs: seq<Range>, ranges: nat) {
    && Distinct(rs)
    && (forall r | r in rs :: r < ranges && (id, r) in listing)
    && (forall k | k in listing && k.0 == id :: k.1 in rs)
  }

  lemma ListingLessAll(listing: Listing, listing': Listing, id: BlockId, rs: seq<Range>, ranges: nat)
    requires ListedIn(listing, id, rs, ranges) && ListingLess(listing, listing', id, rs)
    ensures ListingWithout(listing, listing', id)
  {
  }

  lemma ListingLessNext(listing: Listing, listing': Listing, id: BlockId, rs: seq<Range>, ranges: nat, j: nat)
    requires j < |rs| && ListedIn(listing, id, rs, ranges) && ListingLess(listing, listing', id, rs[..j])
    ensures rs[j] < ranges && (id, rs[j]) in listing'
    ensures ListingLess(listing, listing' - {(id, rs[j])}, id, rs[..j + 1])
  {
    assert rs[j] in rs && rs[j] !in rs[..j];
    assert rs[..j + 1] == rs[..j] + [rs[j]];
    ListingLessOne(listing, listing', id, rs[..j], rs[j]);
  }

  lemma ListedInHas(listing: Listing, id: BlockId, rs: seq<Range>, ranges: nat, r: Range)
    requires ListedIn(listing, id, rs, ranges) && (id, r) in listing
    ensures r in rs
  {
  }

  // The same while the entry for range r has gone first.
  lemma ListingLessAllOther(listing: Listing, listing': Listing, id: BlockId, rs: seq<Range>, ranges: nat, r: Range)
    requires ListedIn(listing, id, rs, ranges) && ListingLess(listing - {(id, r)}, listing', id, rs)
    requires r in rs
    ensures ListingWithout(listing, listing', id)
  {
  }

  lemma ListingLessNextOther(listing: Listing, listing': Listing, id: BlockId, rs: seq<Range>, ranges: nat, j: nat, r: Range)
    requires j < |rs| && ListedIn(listing, id, rs, ranges) && ListingLess(listing - {(id, r)}, listing', id, rs[..j])
    ensures rs[j] < ranges
    ensures rs[j] != r ==> (id, rs[j]) in listing'
    ensures ListingLess(listing - {(id, r)}, if rs[j] == r then listing' else listing' - {(id, rs[j])}, id, rs[..j + 1])
  {
    assert rs[j] in rs && rs[j] !in rs[..j];
    assert rs[..j + 1] == rs[..j] + [rs[j]];
  }

  lemma ListingLessNone(listing: Listing, id: BlockId)
    ensures ListingLess(listing, listing, id, [])
  {
  }

  lemma ListingLessOne(listing: Listing, listing': Listing, id: BlockId, gone: seq<Range>, r: Range)
    requires ListingLess(listing, listing', id, gone)
    ensures ListingLess(listing, listing' - {(id, r)}, id, gone + [r])
  {
  }

  // Blocks have only been removed if they depended on address a.
  ghost predicate Invalidated(t: Tables, t': Tables, a: Local) {
    && Narrowed(t.blocks, t.keyMap, t'.blocks, t'.keyMap) && Shed(t, t', {a})
    && forall x | Gone(t, t', x) :: t.blocks[x].Depends(a) && (a in t.blocks[x].literals ==> x !in t'.blocks)
  }

  lemma InvalidatedOne(t0: Tables, t1: Tables, t2: Tables, id: BlockId, a: Local)
    requires Invalidated(t0, t1, a) && OnlyRemoved(t1.blocks, t1.keyMap, t2.blocks, t2.keyMap, id) && Shed(t1, t2, {a})
    requires Live(t1.blocks, t1.keyMap, id) && t1.blocks[id].Depends(a) && (a in t1.blocks[id].literals ==> id !in t2.blocks)
    ensures Invalidated(t0, t2, a)
  {
    ShedTwice(t0, t1, t2, {a});
    hide Shed;
  }

  // A literal at a that a removed block had folded is not folded again.
  ghost function Noted(t: Tables, id: BlockId, a: Local): set<Local> {
    if id in t.blocks && a in t.blocks[id].literals then {a} else {}
  }

  ghost function NotedAll(t: Tables, t': Tables, a: Local): set<Local> {
    if exists x :: Gone(t, t', x) && a in t.blocks[x].literals then {a} else {}
  }

  lemma NotedNothing(t: Tables, a: Local)
    ensures NotedAll(t, t, a) == {}
  {
  }

  lemma NotedOneMore(t0: Tables, t1: Tables, t2: Tables, id: BlockId, a: Local)
    requires Invalidated(t0, t1, a) && OnlyRemoved(t1.blocks, t1.keyMap, t2.blocks, t2.keyMap, id)
    requires Live(t1.blocks, t1.keyMap, id)
    ensures NotedAll(t0, t2, a) == NotedAll(t0, t1, a) + Noted(t1, id, a)
  {
    hide Shed;
    assert Gone(t0, t2, id) && t0.blocks[id] == t1.blocks[id];
    forall x ensures Gone(t0, t2, x) <==> Gone(t0, t1, x) || x == id {
    }
  }

  lemma InvalidatedNothing(t: Tables, a: Local)
    ensures Invalidated(t, t, a)
  {
  }

  lemma CoherentAfterInvalidation(t: Tables, t': Tables, a: Local, mem: Memory, stale: set<BlockId>)
    requires AllRight(t.blocks, t.keyMap, mem, stale) && Invalidated(t, t', a)
    ensures AllRight(t'.blocks, t'.keyMap, mem, stale)
  {
    hide Right, Shed;
  }

  lemma InvalidationKeepsFast(t: Tables, t': Tables, a: Local)
    requires Invalidated(t, t', a) && FastOk(t.fast, {}, t.blocks, t.keyMap)
    ensures FastOk(t'.fast, {}, t'.blocks, t'.keyMap)
  {
    ShedKeepsFast(t, t', {a}, {});
  }

  // A write to a granule that nothing live depends on leaves every live block coherent.
  lemma WriteKeepsCoherent(blocks: Blocks, keyMap: KeyMap, ranges: nat, args: JitArgs, next: BlockId, mem: Memory, stale: set<BlockId>,
                           a: Local, bytes: Memory)
    requires AllBlocksOk(blocks, ranges, args, next) && AllRight(blocks, keyMap, mem, stale) && NoLiveDepends(blocks, keyMap, a)
    requires forall x | x in bytes :: GranuleOf(x) == GranuleOf(a)
    ensures AllRight(blocks, keyMap, mem + bytes, stale)
  {
    forall id | Live(blocks, keyMap, id) && id !in stale ensures Right(blocks[id], mem + bytes) {
      var b := blocks[id];
      assert BlockOk(b, ranges);
      forall x | x in Sources(b) ensures Read(mem + bytes, x.0) == x.1 {
        assert b.Depends(x.0);
        SameGranuleSameRange(x.0, a);
        assert GranuleOf(x.0) != GranuleOf(a);
      }
    }
  }

  lemma SameGranuleSameRange(a: Local, b: Local)
    ensures GranuleOf(a) == GranuleOf(b) ==> RangeOf(a) == RangeOf(b)
  {
    assert RangeOf(a) == GranuleOf(a) / 32 && RangeOf(b) == GranuleOf(b) / 32;
  }

  // What a range's code mask does not have, no live block depends on.
  lemma UncoveredNoneDepends(blocks: Blocks, keyMap: KeyMap, index: seq<AddressRange>, pageRanges: nat,
                             protectedPages: set<Page>, listing: Listing, a: Local)
    requires ListingOk(blocks, keyMap, listing) && IndexOk(index, pageRanges, protectedPages, listing, ALL_CLOSED, 0)
    requires RangeOf(a) < |index| && GranuleOf(a) !in index[RangeOf(a)].code
    ensures NoLiveDepends(blocks, keyMap, a)
  {
    var r := RangeOf(a);
    assert Covers(index[r], r, listing, |index[r].blocks|);
    forall x | Live(blocks, keyMap, x) ensures !blocks[x].Depends(a) {
      if r in blocks[x].masks {
        assert (x, r) in listing && x in index[r].blocks;
      }
    }
  }

  // No block of the list depends on a.
  ghost predicate NoneDepends(blocks: Blocks, ids: seq<BlockId>, a: Local) {
    forall p | 0 <= p < |ids| :: ids[p] in blocks && !blocks[ids[p]].Depends(a)
  }

  ghost predicate NoLiveDepends(blocks: Blocks, keyMap: KeyMap, a: Local) {
    forall x | Live(blocks, keyMap, x) :: !blocks[x].Depends(a)
  }

  lemma NoneDependsEmpty(blocks: Blocks, a: Local)
    ensures NoneDepends(blocks, [], a)
  {
  }

  lemma NoneDependsMore(blocks: Blocks, ids: seq<BlockId>, i: nat, a: Local)
    requires i < |ids| && NoneDepends(blocks, ids[..i], a)
    requires ids[i] in blocks && !blocks[ids[i]].Depends(a)
    ensures NoneDepends(blocks, ids[..i + 1], a)
  {
    assert ids[..i + 1] == ids[..i] + [ids[i]];
  }

  // A block that depends on an address is listed in its range.
  lemma ScannedNoneLive(blocks: Blocks, keyMap: KeyMap, listing: Listing, index: seq<AddressRange>, a: Local)
    requires ListingOk(blocks, keyMap, listing) && ListsOk(index, listing) && RangeOf(a) < |index|
    requires NoneDepends(blocks, index[RangeOf(a)].blocks, a)
    ensures NoLiveDepends(blocks, keyMap, a)
  {
    var r := RangeOf(a);
    forall x | Live(blocks, keyMap, x) ensures !blocks[x].Depends(a) {
      if r in blocks[x].masks {
        assert (x, r) in listing && x in index[r].blocks;
      }
    }
  }

  lemma NoneDependsKept(blocks: Blocks, keyMap: KeyMap, blocks': Blocks, keyMap': KeyMap, ids: seq<BlockId>, id: BlockId, a: Local)
    requires OnlyRemoved(blocks, keyMap, blocks', keyMap', id) && NoneDepends(blocks, ids, a)
    requires forall p | 0 <= p < |ids| :: Live(blocks, keyMap, ids[p])
    requires id in blocks && blocks[id].Depends(a)
    ensures NoneDepends(blocks', ids, a)
  {
    forall p | 0 <= p < |ids| ensures ids[p] in blocks' && !blocks'[ids[p]].Depends(a) {
      assert ids[p] != id && Live(blocks', keyMap', ids[p]);
    }
  }

  lemma RemovalKeepsListing(blocks: Blocks, keyMap: KeyMap, blocks': Blocks, keyMap': KeyMap,
                            listing: Listing, listing': Listing, id: BlockId)
    requires ListingOk(blocks, keyMap, listing) && OnlyRemoved(blocks, keyMap, blocks', keyMap', id)
    requires ListingWithout(listing, listing', id)
    ensures ListingOk(blocks', keyMap', listing')
  {
  }

  // The fast table with an entry taken out of one slot.
  function Clear(fast: seq<FastEntry>, slot: nat): (cleared: seq<FastEntry>)
    requires slot < |fast|
    ensures |cleared| == |fast|
  {
    fast[slot := EMPTY_ENTRY]
  }

  function ClearOwn(fast: seq<FastEntry>, b: Block, id: BlockId): (cleared: seq<FastEntry>)
    requires b.startAddrLocal / 2 < |fast|
    ensures |cleared| == |fast|
  {
    var slot := b.startAddrLocal / 2;
    if fast[slot] == FastEntry(MakeLookupTag(b.startAddr, b.num, b.thumb), id) then Clear(fast, slot) else fast
  }

  lemma RemovalKeepsFast(blocks: Blocks, keyMap: KeyMap, blocks': Blocks, keyMap': KeyMap,
                         fast: seq<FastEntry>, fast': seq<FastEntry>, strays: set<nat>, id: BlockId)
    requires FastOk(fast, strays, blocks, keyMap) && OnlyRemoved(blocks, keyMap, blocks', keyMap', id)
    requires Live(blocks, keyMap, id) && blocks[id].startAddrLocal / 2 < |fast|
    requires fast' == ClearOwn(fast, blocks[id], id) || fast' == Clear(fast, blocks[id].startAddrLocal / 2)
    ensures FastOk(fast', strays, blocks', keyMap')
  {
    forall s | 0 <= s < |fast'| && s !in strays && fast'[s].tag != EMPTY_TAG ensures EntryOk(fast'[s], s, blocks', keyMap') {
      assert EntryOk(fast[s], s, blocks, keyMap);
    }
  }

  ghost predicate AllBlocksOk(blocks: Blocks, ranges: nat, args: JitArgs, next: BlockId) {
    forall id | id in blocks :: id < next && BlockOk(blocks[id], ranges) && Allowed(blocks[id], args)
  }

  lemma FewerBlocksOk(blocks: Blocks, blocks': Blocks, ranges: nat, args: JitArgs, next: BlockId)
    requires AllBlocksOk(blocks, ranges, args, next)
    requires forall id | id in blocks' :: id in blocks && blocks'[id] == blocks[id]
    ensures AllBlocksOk(blocks', ranges, args, next)
  {
    hide BlockOk, Allowed;
  }

  // What was found through the fast table before is found, unless it has gone.
  lemma ShedKeepsFast(t: Tables, t': Tables, written: set<Local>, strays: set<nat>)
    requires Shed(t, t', written) && Narrowed(t.blocks, t.keyMap, t'.blocks, t'.keyMap)
    requires FastOk(t.fast, strays, t.blocks, t.keyMap)
    ensures FastOk(t'.fast, strays, t'.blocks, t'.keyMap)
  {
    hide MakeLookupTag, Folded;
    forall s | 0 <= s < |t'.fast| && s !in strays && t'.fast[s].tag != EMPTY_TAG
      ensures EntryOk(t'.fast[s], s, t'.blocks, t'.keyMap)
    {
      assert EntryOk(t.fast[s], s, t.blocks, t.keyMap);
      var x := t.fast[s].offset;
      assert !Gone(t, t', x);
    }
  }

  // The same blocks are live as before, and have not changed.
  ghost predicate SameLive(blocks: Blocks, keyMap: KeyMap, blocks': Blocks, keyMap': KeyMap) {
    && (forall x :: Live(blocks, keyMap, x) <==> Live(blocks', keyMap', x))
    && (forall x | Live(blocks, keyMap, x) :: blocks'[x] == blocks[x])
  }

  lemma SameLiveKeepsListing(blocks: Blocks, keyMap: KeyMap, blocks': Blocks, keyMap': KeyMap, listing: Listing)
    requires SameLive(blocks, keyMap, blocks', keyMap') && ListingOk(blocks, keyMap, listing)
    ensures ListingOk(blocks', keyMap', listing)
  {
  }

  lemma SameLiveKeepsFast(blocks: Blocks, keyMap: KeyMap, blocks': Blocks, keyMap': KeyMap, fast: seq<FastEntry>, strays: set<nat>)
    requires SameLive(blocks, keyMap, blocks', keyMap') && FastOk(fast, strays, blocks, keyMap)
    ensures FastOk(fast, strays, blocks', keyMap')
  {
    forall s | 0 <= s < |fast| && s !in strays && fast[s].tag != EMPTY_TAG ensures EntryOk(fast[s], s, blocks', keyMap') {
      assert EntryOk(fast[s], s, blocks, keyMap);
    }
  }

  // A new entry in the slot of an address; it is astray if its block starts elsewhere.
  lemma NewEntryKeepsFast(blocks: Blocks, keyMap: KeyMap, keyMap': KeyMap, fast: seq<FastEntry>, strays: set<nat>, id: BlockId,
                          local: Local)
    requires FastOk(fast, strays, blocks, keyMap)
    requires forall x | Live(blocks, keyMap, x) :: Live(blocks, keyMap', x)
    requires Live(blocks, keyMap', id) && local / 2 < |fast|
    ensures FastOk(Enter(fast, blocks[id], id, local), StraysAfter(strays, blocks[id], local), blocks, keyMap')
  {
    var fast' := Enter(fast, blocks[id], id, local);
    forall s | 0 <= s < |fast'| && s !in StraysAfter(strays, blocks[id], local) && fast'[s].tag != EMPTY_TAG
      ensures EntryOk(fast'[s], s, blocks, keyMap')
    {
      if s != local / 2 {
        assert EntryOk(fast[s], s, blocks, keyMap);
      }
    }
  }

  // An entry in the block's own slot.
  lemma NewEntryOnlyKeepsFast(blocks: Blocks, keyMap: KeyMap, fast: seq<FastEntry>, strays: set<nat>, id: BlockId)
    requires FastOk(fast, strays, blocks, keyMap) && Live(blocks, keyMap, id) && blocks[id].startAddrLocal / 2 < |fast|
    ensures FastOk(Enter(fast, blocks[id], id, blocks[id].startAddrLocal), strays, blocks, keyMap)
  {
    NewEntryKeepsFast(blocks, keyMap, keyMap, fast, strays, id, blocks[id].startAddrLocal);
  }

  function Enter(fast: seq<FastEntry>, b: Block, id: BlockId, local: Local): (fast': seq<FastEntry>)
    requires local / 2 < |fast|
    ensures |fast'| == |fast|
  {
    fast[local / 2 := FastEntry(MakeLookupTag(b.startAddr, b.num, b.thumb), id)]
  }

  lemma EnterAt(fast: seq<FastEntry>, b: Block, id: BlockId, local: Local)
    requires local / 2 < |fast|
    ensures Enter(fast, b, id, local)[local / 2] == FastEntry(MakeLookupTag(b.startAddr, b.num, b.thumb), id)
  {
  }

  function StraysAfter(strays: set<nat>, b: Block, local: Local): set<nat> {
    if b.startAddrLocal / 2 == local / 2 then strays - {local / 2} else strays + {local / 2}
  }

  lemma StartAligned(addr: nat, local: Local)
    requires addr % 2 == 0 && addr % 512 == local % 512
    ensures addr % 4 == local % 4 && local % 2 == 0
  {
    LowBitsOfRange(addr);
    LowBitsOfRange(local);
    EvenByWord(addr);
    EvenByWord(local);
  }

  lemma LowBitsOfRange(a: nat)
    ensures a % 4 == a % 512 % 4
  {
    var q, r := a / 512, a % 512;
    Bits.Quotient(a, 4, 128 * q + r / 4, r % 4);
  }

  lemma EvenByWord(a: nat)
    ensures a % 2 == a % 4 % 2
  {
    Bits.Quotient(a, 2, a / 4 * 2 + a % 4 / 2, a % 4 % 2);
  }

  /** Slot and tag together determine address, CPU and state. */
  lemma TagIsUnique(addr: nat, num: nat, thumb: bool, local: Local, addr': nat, num': nat, thumb': bool, local': Local)
    requires num < 2 && num' < 2 && addr % 2 == 0 && addr' % 2 == 0
    requires addr % 4 == local % 4 && addr' % 4 == local' % 4
    ensures MakeLookupTag(addr, num, thumb) == MakeLookupTag(addr', num', thumb') && local / 2 == local' / 2
      <==> addr == addr' && num == num' && thumb == thumb' && local / 2 == local' / 2
  {
    hide MakeLookupTag;
    LowBits(addr, num, thumb);
    LowBits(addr', num', thumb');
    HalfwordSlot(addr, local);
    HalfwordSlot(addr', local');
    var tag, tag' := MakeLookupTag(addr, num, thumb), MakeLookupTag(addr', num', thumb');
    if tag == tag' && local / 2 == local' / 2 {
      assert addr / 4 == addr' / 4 && addr % 4 == addr' % 4;
    }
  }

  lemma LowBits(addr: nat, num: nat, thumb: bool)
    requires num < 2
    ensures MakeLookupTag(addr, num, thumb) / 4 == addr / 4
    ensures MakeLookupTag(addr, num, thumb) % 4 == num * 2 + if thumb then 1 else 0
    ensures addr == addr / 4 * 4 + addr % 4
  {
    var low := num * 2 + if thumb then 1 else 0;
    assert 0 <= low < 4;
  }

  lemma HalfwordSlot(addr: nat, local: Local)
    requires addr % 2 == 0 && addr % 4 == local % 4
    ensures addr % 4 == local / 2 % 2 * 2
  {
    var q := local / 4;
    assert addr % 4 == addr % 2 || addr % 4 == addr % 2 + 2;
    if local % 4 == 0 {
      assert local / 2 == 2 * q;
    } else {
      assert local == 4 * q + 2 && local / 2 == 2 * q + 1;
    }
  }

  /** The mark of an empty slot is the tag of the last Thumb word of the ARM7 alone. */
  lemma EmptyTagIff(addr: nat, num: nat, thumb: bool)
    requires num < 2 && addr < 0x1_0000_0000
    ensures MakeLookupTag(addr, num, thumb) == EMPTY_TAG <==> addr >= 0xFFFF_FFFC && num == 1 && thumb
  {
    LowBits(addr, num, thumb);
  }

  lemma RemovedKeepsRight(t: Tables, t': Tables, id: BlockId, mem: Memory, stale: set<BlockId>)
    requires AllRight(t.blocks, t.keyMap, mem, stale) && OnlyRemoved(t.blocks, t.keyMap, t'.blocks, t'.keyMap, id)
    requires Owned(t'.blocks, t'.keyMap, t'.pool) && Live(t.blocks, t.keyMap, id) && Shed(t, t', {})
    ensures AllRight(t'.blocks, t'.keyMap, mem, stale) && t.blocks[id].Key() !in t'.keyMap
    ensures AllRight(t.blocks, t.keyMap, mem, {}) ==> AllRight(t'.blocks, t'.keyMap, mem, {})
    ensures FastOk(t.fast, {}, t.blocks, t.keyMap) ==> FastOk(t'.fast, {}, t'.blocks, t'.keyMap)
  {
    if FastOk(t.fast, {}, t.blocks, t.keyMap) {
      ShedKeepsFast(t, t', {}, {});
    }
    hide Right, FastOk, Shed;
    KeysAreLive(t'.blocks, t'.keyMap, t'.pool);
  }

  lemma KeysAreLive(blocks: Blocks, keyMap: KeyMap, pool: Pool)
    requires Owned(blocks, keyMap, pool)
    ensures forall k | k in keyMap :: Live(blocks, keyMap, keyMap[k]) && blocks[keyMap[k]].Key() == k
  {
  }

  // The key map holds a block under its own CPU, address and state.
  lemma KeyIsBlock(blocks: Blocks, keyMap: KeyMap, pool: Pool, ranges: nat, args: JitArgs, next: BlockId, num: nat, thumb: bool, addr: nat)
    requires Owned(blocks, keyMap, pool) && AllBlocksOk(blocks, ranges, args, next) && addr % 2 == 0
    requires (num, addr + if thumb then 1 else 0) in keyMap
    ensures var id := keyMap[(num, addr + if thumb then 1 else 0)];
      Live(blocks, keyMap, id) && BlockOk(blocks[id], ranges)
      && blocks[id].num == num && blocks[id].startAddr == addr && blocks[id].thumb == thumb
  {
    hide FootprintOk, PathOk, Allowed;
    var id := keyMap[(num, addr + if thumb then 1 else 0)];
    assert BlockOk(blocks[id], ranges);
  }

  lemma NewBlockOk(blocks: Blocks, ranges: nat, args: JitArgs, next: BlockId, b: Block)
    requires AllBlocksOk(blocks, ranges, args, next) && BlockOk(b, ranges) && Allowed(b, args)
    ensures next !in blocks && AllBlocksOk(blocks[next := b], ranges, args, next + 1)
  {
    hide BlockOk, Allowed;
  }

  lemma SameLiveKeepsCoherent(blocks: Blocks, keyMap: KeyMap, blocks': Blocks, keyMap': KeyMap, mem: Memory,
                                stale: set<BlockId>)
    requires SameLive(blocks, keyMap, blocks', keyMap') && AllRight(blocks, keyMap, mem, stale)
    ensures AllRight(blocks', keyMap', mem, stale)
  {
    hide Right, Live;
  }

  lemma StartSlot(b: Block, ranges: nat, fast: seq<FastEntry>)
    requires BlockOk(b, ranges) && |fast| == ranges * 256
    ensures FootprintOk(b, ranges) && ShapeOk(b) && b.startAddrLocal / 2 < |fast|
    ensures RangeOf(b.startAddrLocal) < ranges && b.startAddrLocal % 2 == 0
  {
    BlockStartEven(b, ranges);
    hide PathOk;
  }

  lemma BlockStartEven(b: Block, ranges: nat)
    requires BlockOk(b, ranges)
    ensures b.startAddrLocal % 2 == 0
  {
    hide FootprintOk, PathOk;
    StartAligned(b.startAddr, b.startAddrLocal);
  }

  lemma BlockOfAll(blocks: Blocks, ranges: nat, args: JitArgs, next: BlockId, id: BlockId)
    requires AllBlocksOk(blocks, ranges, args, next) && id in blocks
    ensures BlockOk(blocks[id], ranges) && Allowed(blocks[id], args)
  {
  }

  lemma SameLiveRefl(blocks: Blocks, keyMap: KeyMap)
    ensures SameLive(blocks, keyMap, blocks, keyMap)
  {
  }

  lemma SameLiveTrans(blocks0: Blocks, keyMap0: KeyMap, blocks1: Blocks, keyMap1: KeyMap, blocks2: Blocks, keyMap2: KeyMap)
    requires SameLive(blocks0, keyMap0, blocks1, keyMap1) && SameLive(blocks1, keyMap1, blocks2, keyMap2)
    ensures SameLive(blocks0, keyMap0, blocks2, keyMap2)
  {
    hide Live;
  }

  // In each of the ranges rs, block id has left the list and the last block has taken its place.
  ghost predicate ListsSwapped(index: seq<AddressRange>, index': seq<AddressRange>, rs: seq<Range>, id: BlockId) {
    && |index| == |index'|
    && forall r | 0 <= r < |index| ::
         if r in rs then Swapped(index[r].blocks, index'[r].blocks, id) else index'[r].blocks == index[r].blocks
  }

  lemma ListsSwappedNone(index: seq<AddressRange>, id: BlockId)
    ensures ListsSwapped(index, index, [], id)
  {
  }

  lemma ListsSwappedNext(index0: seq<AddressRange>, index1: seq<AddressRange>, index2: seq<AddressRange>, rs: seq<Range>,
                         j: nat, id: BlockId, listing: Listing, ranges: nat)
    requires j < |rs| && ListedIn(listing, id, rs, ranges) && ListsSwapped(index0, index1, rs[..j], id)
    requires |index1| == |index2| == ranges && rs[j] < ranges && Swapped(index1[rs[j]].blocks, index2[rs[j]].blocks, id)
    requires forall x | 0 <= x < ranges && x != rs[j] :: index2[x] == index1[x]
    ensures ListsSwapped(index0, index2, rs[..j + 1], id)
  {
    hide Swapped;
    assert rs[j] !in rs[..j];
    assert rs[..j + 1] == rs[..j] + [rs[j]];
  }

  lemma ScannedSwapped(index: seq<AddressRange>, index': seq<AddressRange>, r: Range, i: nat, rs: seq<Range>)
    requires r < |index| && i < |index[r].blocks| && Distinct(index[r].blocks) && r in rs
    requires ListsSwapped(index, index', rs, index[r].blocks[i])
    ensures |index'[r].blocks| == |index[r].blocks| - 1 && index'[r].blocks[..i] == index[r].blocks[..i]
  {
    SwappedAt(index[r].blocks, index'[r].blocks, i);
  }
}
