/**
  The arrays that CompileBlock records a trace in (src/ARMJIT.cpp): each of them has room for 32
  entries. Those of words and literals are always large enough, that of ranges exactly if no
  branches are followed, no literals are folded, or blocks have at most 21 instructions.
*/
module TraceArrays {
  import Bits
  import opened CodeIndex
  import opened Lists
  import opened CompiledBlocks
  import opened TraceRecording
  import opened BlockCaching
  import Runs = MainRamRuns

  const LIMIT := 0x1_0000_0000

  // The address of a load relative to the PC; in ARM state either way (DecodeLiteral).
  function DecodeLiteral(thumb: bool, addr: nat, imm: nat, up: bool): nat {
    var offset: int := if up then imm else 0 - imm;
    if thumb then ((addr + 4) / 4 * 4 + imm * 4) % LIMIT else (addr + 8 + offset) % LIMIT
  }

  // The literals of a trace have been loaded by its instructions.
  ghost predicate Loaded(b: Block, at: Localisation) {
    forall l | l in b.literals :: exists k, imm: nat, up ::
      && 0 <= k < |b.virtuals| && imm < (if b.thumb then 256 else 4096)
      && at(DecodeLiteral(b.thumb, b.virtuals[k], imm, up)) == l
  }

  // -------- how many ranges there can be --------

  lemma {:induction false} ImageSize(n: nat, f: nat -> Range)
    ensures |set j: nat | j < n :: f(j)| <= n
  {
    if n > 0 {
      ImageSize(n - 1, f);
      assert (set j: nat | j < n :: f(j)) == (set j: nat | j < n - 1 :: f(j)) + {f(n - 1)};
    } else {
      assert (set j: nat | j < n :: f(j)) == {};
    }
  }

  lemma {:induction false} SizeOfDistinct(s: seq<Range>, limit: set<Range>)
    requires Distinct(s) && forall x | x in s :: x in limit
    ensures |s| <= |limit|
  {
    if s != [] {
      var last := s[|s| - 1];
      assert last !in s[..|s| - 1];
      SizeOfDistinct(s[..|s| - 1], limit - {last});
    }
  }

  // The ranges that code without followed branches lies in.
  function CodeRange(b: Block, at: Localisation): nat -> Range {
    j => RangeOf(at((RangeOf(b.startAddr) + j) * 512))
  }

  // The ranges that literals can be loaded from, lowest address first.
  function LiteralRange(b: Block, at: Localisation): nat -> Range {
    j => RangeOf(at((RangeOf(b.startAddr + LIMIT - 4096) + j) % (LIMIT / 512) * 512))
  }

  lemma SameRange(at: Localisation, v: nat)
    requires Ranged(at)
    ensures RangeOf(at(v)) == RangeOf(at(RangeOf(v) * 512))
  {
    Bits.Quotient(RangeOf(v) * 512, 512, RangeOf(v), 0);
  }

  lemma CodeInRange(b: Block, at: Localisation, k: nat)
    requires Ranged(at) && InLine(b) && k < |b.virtuals| <= MAX_BLOCK_SIZE
    ensures exists j: nat | j < 2 :: RangeOf(at(b.virtuals[k])) == CodeRange(b, at)(j)
  {
    InLineRanges(b, k);
    assert b.virtuals[0] == b.startAddr + 0 * b.Step();
    SameRange(at, b.virtuals[k]);
    var j := RangeOf(b.virtuals[k]) - RangeOf(b.startAddr);
    assert RangeOf(at(b.virtuals[k])) == CodeRange(b, at)(j);
  }

  // How far before or behind the start of the block a load reaches.
  lemma Reach(b: Block, k: nat, imm: nat, up: bool) returns (d: nat)
    requires InLine(b) && k < |b.virtuals| <= MAX_BLOCK_SIZE && imm < (if b.thumb then 256 else 4096)
    ensures d < 8400 && DecodeLiteral(b.thumb, b.virtuals[k], imm, up) == (b.startAddr + LIMIT - 4096 + d) % LIMIT
  {
    assert b.virtuals[k] == b.startAddr + k * b.Step();
    assert 0 <= k * b.Step() <= 4 * 31;
    d := ReachFrom(b.thumb, b.startAddr, k * b.Step(), imm, up);
  }

  lemma ReachFrom(thumb: bool, start: nat, distance: nat, imm: nat, up: bool) returns (d: nat)
    requires distance <= 4 * 31 && imm < (if thumb then 256 else 4096)
    ensures d < 8400 && DecodeLiteral(thumb, start + distance, imm, up) == (start + LIMIT - 4096 + d) % LIMIT
  {
    var offset: int := if up then imm else 0 - imm;
    var x := if thumb then (start + distance + 4) / 4 * 4 + imm * 4 else start + distance + 8 + offset;
    d := x + 4096 - start;
    assert start + LIMIT - 4096 + d == x + LIMIT;
  }

  lemma LiteralInRange(b: Block, at: Localisation, k: nat, imm: nat, up: bool)
    requires Ranged(at) && InLine(b) && k < |b.virtuals| <= MAX_BLOCK_SIZE && imm < (if b.thumb then 256 else 4096)
    ensures exists j: nat | j < 18 :: RangeOf(at(DecodeLiteral(b.thumb, b.virtuals[k], imm, up))) == LiteralRange(b, at)(j)
  {
    hide RangeOf, DecodeLiteral, Ranged, InLine;
    var d := Reach(b, k, imm, up);
    var base := b.startAddr + LIMIT - 4096;
    var v := DecodeLiteral(b.thumb, b.virtuals[k], imm, up);
    SameRange(at, v);
    RangeModulo(base + d);
    FewBetween(base, d);
    var j: nat := RangeOf(base + d) - RangeOf(base);
    assert RangeOf(at(v)) == LiteralRange(b, at)(j);
  }

  lemma FewBetween(a: nat, d: nat)
    requires d < 8400
    ensures RangeOf(a) <= RangeOf(a + d) < RangeOf(a) + 18
  {
  }

  lemma RangeModulo(a: nat)
    ensures RangeOf(a % LIMIT) == RangeOf(a) % (LIMIT / 512)
  {
    Bits.Quotient(RangeOf(a), LIMIT / 512, a / LIMIT, RangeOf(a % LIMIT));
  }

  // What is traced in line fills few ranges, however far its literals are.
  lemma FewRanges(b: Block, at: Localisation)
    requires Ranged(at) && InLine(b) && |b.virtuals| == |b.addrs| <= MAX_BLOCK_SIZE && Loaded(b, at) && RangesUsed(b) && Distinct(b.ranges)
    requires forall k | 0 <= k < |b.addrs| :: b.addrs[k] == at(b.virtuals[k])
    ensures |b.ranges| <= 20
  {
    hide RangeOf, Ranged, InLine, DecodeLiteral, Distinct, CodeRange, LiteralRange;
    var code := set j: nat | j < 2 :: CodeRange(b, at)(j);
    var literals := set j: nat | j < 18 :: LiteralRange(b, at)(j);
    forall r | r in b.ranges ensures r in code + literals {
      if k: nat :| k < |b.addrs| && RangeOf(b.addrs[k]) == r {
        CodeInRange(b, at, k);
      } else {
        var l :| l in b.literals && RangeOf(l) == r;
        var k: nat, imm: nat, up :| k < |b.virtuals| && imm < (if b.thumb then 256 else 4096)
          && at(DecodeLiteral(b.thumb, b.virtuals[k], imm, up)) == l;
        LiteralInRange(b, at, k, imm, up);
      }
    }
    ImageSize(2, CodeRange(b, at));
    ImageSize(18, LiteralRange(b, at));
    SizeOfDistinct(b.ranges, code + literals);
  }

  // The ranges of words in one piece, up to where the next word is.
  ghost function PieceRanges(at: Localisation, virt: nat): set<Range> {
    {RangeOf(at(RangeOf(virt) * 512)), RangeOf(at((RangeOf(virt) + 1) * 512))}
  }

  lemma InPiece(at: Localisation, virt: nat, distance: nat)
    requires Ranged(at) && distance < 512
    ensures RangeOf(at(virt + distance)) in PieceRanges(at, virt)
  {
    SameRange(at, virt + distance);
  }

  // Code in pieces, the last of which begins at s, lies in two ranges for each piece.
  lemma {:induction false} CodeInPieces(virtuals: seq<nat>, step: nat, at: Localisation) returns (before: set<Range>, s: nat)
    requires Ranged(at) && 0 < |virtuals| <= MAX_BLOCK_SIZE && step in {2, 4}
    ensures |before| <= 2 * Jumps(virtuals, step) && s < |virtuals|
    ensures virtuals[|virtuals| - 1] == virtuals[s] + (|virtuals| - 1 - s) * step
    ensures forall k | 0 <= k < |virtuals| :: RangeOf(at(virtuals[k])) in before + PieceRanges(at, virtuals[s])
  {
    hide RangeOf, Ranged, PieceRanges;
    var n := |virtuals| - 1;
    if n == 0 {
      before, s := {}, 0;
      InPiece(at, virtuals[0], 0);
    } else {
      var before0, s0 := CodeInPieces(virtuals[..n], step, at);
      assert virtuals == virtuals[..n] + [virtuals[n]];
      before, s := WordInPieces(virtuals[..n], virtuals[n], step, at, before0, s0);
    }
  }

  // One more word.
  lemma WordInPieces(virtuals: seq<nat>, next: nat, step: nat, at: Localisation, before: set<Range>, s: nat)
    returns (before': set<Range>, s': nat)
    requires Ranged(at) && s < |virtuals| < MAX_BLOCK_SIZE && step in {2, 4} && |before| <= 2 * Jumps(virtuals, step)
    requires virtuals[|virtuals| - 1] == virtuals[s] + (|virtuals| - 1 - s) * step
    requires forall k | 0 <= k < |virtuals| :: RangeOf(at(virtuals[k])) in before + PieceRanges(at, virtuals[s])
    ensures var all := virtuals + [next];
      && |before'| <= 2 * Jumps(all, step) && s' < |all| && next == all[s'] + (|virtuals| - s') * step
      && forall k | 0 <= k < |all| :: RangeOf(at(all[k])) in before' + PieceRanges(at, all[s'])
  {
    hide RangeOf, Ranged, PieceRanges, Jumps;
    var n := |virtuals|;
    JumpMore(virtuals, next, step);
    if next == virtuals[n - 1] + step {
      before', s' := before, s;
      PieceGoesOn(virtuals[s], virtuals[n - 1], n - 1 - s, step, at);
    } else {
      before', s' := before + PieceRanges(at, virtuals[s]), n;
      PieceSize(at, virtuals[s]);
      UnionSize(before, PieceRanges(at, virtuals[s]));
      InPiece(at, next, 0);
    }
  }

  lemma PieceGoesOn(start: nat, virt: nat, words: nat, step: nat, at: Localisation)
    requires Ranged(at) && virt == start + words * step && words < MAX_BLOCK_SIZE && step in {2, 4}
    ensures virt + step == start + (words + 1) * step && RangeOf(at(virt + step)) in PieceRanges(at, start)
  {
    hide RangeOf, Ranged, PieceRanges;
    assert (words + 1) * step == words * step + step <= 4 * 32;
    InPiece(at, start, (words + 1) * step);
  }

  lemma PieceSize(at: Localisation, virt: nat)
    ensures |PieceRanges(at, virt)| <= 2
  {
    var a, b := RangeOf(at(RangeOf(virt) * 512)), RangeOf(at((RangeOf(virt) + 1) * 512));
    if a == b {
      assert PieceRanges(at, virt) == {a};
    }
  }

  lemma UnionSize(a: set<Range>, b: set<Range>)
    ensures |a + b| <= |a| + |b|
  {
  }

  // Ranges of instructions come one a word, or two a piece; other ranges are of literals.
  lemma CountedRanges(b: Block, at: Localisation)
    requires Ranged(at) && 0 < |b.virtuals| == |b.addrs| <= MAX_BLOCK_SIZE && RangesUsed(b) && Distinct(b.ranges)
    requires forall k | 0 <= k < |b.addrs| :: b.addrs[k] == at(b.virtuals[k])
    ensures |b.ranges| <= |b.addrs| + |b.literals|
    ensures |b.ranges| <= 2 * Jumps(b.virtuals, b.Step()) + 2 + |b.literals|
  {
    hide RangeOf, Ranged, Distinct, PieceRanges;
    var codeAt: nat -> Range := k => if 0 <= k < |b.addrs| then RangeOf(b.addrs[k]) else 0;
    var literalAt: nat -> Range := k => if 0 <= k < |b.literals| then RangeOf(b.literals[k]) else 0;
    var code := set k: nat | k < |b.addrs| :: codeAt(k);
    var literals := set k: nat | k < |b.literals| :: literalAt(k);
    var before, s := CodeInPieces(b.virtuals, b.Step(), at);
    var pieces := before + PieceRanges(at, b.virtuals[s]);
    forall r | r in b.ranges ensures r in code + literals && r in pieces + literals {
      if k: nat :| k < |b.addrs| && RangeOf(b.addrs[k]) == r {
        assert codeAt(k) == r;
      } else {
        var l :| l in b.literals && RangeOf(l) == r;
        var k: nat :| k < |b.literals| && b.literals[k] == l;
        assert literalAt(k) == r;
      }
    }
    ImageSize(|b.addrs|, codeAt);
    ImageSize(|b.literals|, literalAt);
    PieceSize(at, b.virtuals[s]);
    UnionSize(before, PieceRanges(at, b.virtuals[s]));
    UnionSize(code, literals);
    UnionSize(pieces, literals);
    SizeOfDistinct(b.ranges, code + literals);
    SizeOfDistinct(b.ranges, pieces + literals);
  }

  /** The words and literals of a trace have room in any state of any run. */
  lemma WordsFit(cache: BlockCache)
    requires cache.Inv() && cache.compilingBlock
    ensures |cache.trace.words| <= cache.args.maxBlockSize && |cache.trace.literals| <= MAX_BLOCK_SIZE
  {
    hide BlockCache.Kept, TraceOk, NoneTouched, AheadInLine, RangesUsed, Linked;
  }

  // The settings under which the ranges have room.
  predicate RangesFit(args: JitArgs) { !args.Follows() || !args.literalOptimizations || args.maxBlockSize <= 21 }

  /** The ranges have room as long as no branches are followed, no literals are folded, or blocks have at most 21 instructions. */
  lemma HasRoom(cache: BlockCache)
    requires cache.Inv() && cache.compilingBlock && Loaded(cache.trace, cache.localise) && RangesFit(cache.args)
    ensures |cache.trace.ranges| <= MAX_BLOCK_SIZE
  {
    hide BlockCache.Kept, StartOk, FreshOrLogged, LogInRange, FetchOk, NoneTouched, Loaded, InLine, RangesUsed, Ranged, Sources,
      RangesOfPath, Jumps, Linked;
    var b := cache.trace;
    if b.addrs == [] {
    } else if !cache.args.Follows() {
      FewRanges(b, cache.localise);
    } else {
      CountedRanges(b, cache.localise);
      JumpMore(b.virtuals, cache.pipeline[0].virt, b.Step());
    }
  }

  // -------- and that this is exact --------

  // A load and a branch: the literal is two ranges behind the load, and the next load where the branch leads.
  const LOAD: Word := [0x80, 0x48]
  const B: Word := [0xFD, 0xE2]
  const PIECE := 0x600

  function LoadAt(k: nat): nat { PIECE * k + 0x1FE }

  ghost predicate Chain(mem: Memory, n: nat) {
    forall k: nat | k < n :: Runs.CodeWord(mem, LoadAt(k)) == LOAD && Runs.CodeWord(mem, LoadAt(k) + 2) == B
  }

  // The instruction at offset `next` is in front of the pipeline.
  ghost predicate Along(cache: BlockCache, count: nat, rs: seq<Range>, next: nat)
    reads cache, cache.memory
  {
    && cache.Inv() && cache.compilingBlock && cache.localise == Runs.At() && cache.ranges == Runs.RANGES && !cache.interrupted
    && cache.trace.num == 1 && cache.trace.thumb && |cache.trace.words| == |cache.trace.addrs| == cache.count == count
    && cache.trace.ranges == rs && Chain(cache.mem, 11) && cache.invalidLiterals == {} && Loaded(cache.trace, Runs.At())
    && cache.pipeline == [Runs.FetchedAt(cache.mem, next), Runs.FetchedAt(cache.mem, next + 2)]
  }

  // What the run needs of decoding: the branch ends a block, the load does not.
  ghost predicate Decoded(endsBlock: Decoding) { endsBlock(1, true, B) && !endsBlock(1, true, LOAD) }

  ghost predicate Below(rs: seq<Range>, k: nat) { forall r | r in rs :: r < Runs.CODE_RANGE + 3 * k }

  lemma LoadedWithInstruction(b: Block, f: Fetched, rs: seq<Range>, at: Localisation)
    requires Loaded(b, at)
    ensures Loaded(WithInstruction(b, f, rs), at)
  {
    hide DecodeLiteral;
    var b' := WithInstruction(b, f, rs);
    forall l | l in b'.literals
      ensures exists k, imm: nat, up ::
        && 0 <= k < |b'.virtuals| && imm < (if b'.thumb then 256 else 4096)
        && at(DecodeLiteral(b'.thumb, b'.virtuals[k], imm, up)) == l
    {
      var k, imm: nat, up :| 0 <= k < |b.virtuals| && imm < (if b.thumb then 256 else 4096)
        && at(DecodeLiteral(b.thumb, b.virtuals[k], imm, up)) == l;
      assert b'.virtuals[k] == b.virtuals[k];
    }
  }

  lemma LoadedWithLiteral(b: Block, imm: nat, w: Word, rs: seq<Range>, at: Localisation)
    requires Loaded(b, at) && b.virtuals != [] && b.thumb && imm < 256
    ensures Loaded(WithLiteral(b, at(DecodeLiteral(true, b.virtuals[|b.virtuals| - 1], imm, true)), w, rs), at)
  {
    hide DecodeLiteral;
    assert 0 <= |b.virtuals| - 1 < |b.virtuals|;
  }

  // Where the load and the branch of piece k are, and the literal.
  lemma Places(k: nat)
    requires k < 12
    ensures Runs.At()(Runs.CODE + LoadAt(k)) == Runs.CODE_LOCAL + LoadAt(k)
    ensures RangeOf(Runs.CODE_LOCAL + LoadAt(k)) == Runs.CODE_RANGE + 3 * k
    ensures Runs.At()(Runs.CODE + LoadAt(k) + 2) == Runs.CODE_LOCAL + LoadAt(k) + 2
    ensures RangeOf(Runs.CODE_LOCAL + LoadAt(k) + 2) == Runs.CODE_RANGE + 3 * k + 1
  {
    hide Runs.At;
    Runs.CodeAt(LoadAt(k));
    Runs.CodeAt(LoadAt(k) + 2);
  }

  lemma LiteralPlace(k: nat)
    requires k < 12
    ensures var l := Runs.At()(DecodeLiteral(true, Runs.CODE + LoadAt(k), 0x80, true));
      l == Runs.CODE_LOCAL + PIECE * k + 0x400 && RangeOf(l) == Runs.CODE_RANGE + 3 * k + 2
  {
    hide Runs.At;
    assert DecodeLiteral(true, Runs.CODE + LoadAt(k), 0x80, true) == Runs.CODE + PIECE * k + 0x400;
    Runs.CodeAt(PIECE * k + 0x400);
  }

  lemma NoLink(b: Block)
    requires b.thumb && b.words != [] && b.words[|b.words| - 1] in {LOAD, B}
    ensures !HalfLink(b) && !Linked(b) && MayFollow(b)
  {
  }

  lemma NoneMerged(b: Block)
    ensures !Merges(b, LOAD) && !Merges(b, B)
  {
  }

  // An instruction in a new range.
  method Next(cache: BlockCache, ghost count: nat, ghost rs: seq<Range>, ghost next: nat, ghost w: Word)
    requires Along(cache, count, rs, next) && next < 0x7000 && Runs.CodeWord(cache.mem, next) == w && w in {LOAD, B}
    requires RangeOf(Runs.CODE_LOCAL + next) !in rs && RangeOf(Runs.CODE_LOCAL + next) < Runs.RANGES
    requires Runs.At()(Runs.CODE + next) == Runs.CODE_LOCAL + next
    requires count == 0 || (!cache.endBlock && count < cache.args.maxBlockSize)
    modifies cache`trace, cache`pipeline, cache`count, cache`endBlock, cache`plain
    ensures Along(cache, count + 1, rs + [RangeOf(Runs.CODE_LOCAL + next)], next + 2) && cache.plain
    ensures cache.endBlock == cache.endsBlock(1, true, w) && cache.trace.words[count] == w
    ensures |cache.trace.virtuals| == count + 1 && cache.trace.virtuals[count] == Runs.CODE + next
  {
    hide BlockCache.Kept, FootprintOk, FreshOrLogged, LogInRange, FetchOk, StartOk, Ranged, Embeds, NoneTouched, CountOk, AheadInLine,
      Fetch, Runs.CodeWord, Runs.At, Merges, Loaded, Chain, RangeOf, RangesOfPath, FetchWidth;
    ghost var b := cache.trace;
    Runs.FetchAt(cache.mem, next + 4);
    NoneMerged(b);
    cache.RecordInstruction();
    LoadedWithInstruction(b, Runs.FetchedAt(cache.mem, next), cache.trace.ranges, Runs.At());
  }

  // Its literal is folded.
  method Fold(cache: BlockCache, ghost count: nat, ghost rs: seq<Range>, ghost next: nat, k: nat)
    requires Along(cache, count, rs, next) && k < 12 && cache.plain && cache.args.literalOptimizations
    requires |cache.trace.virtuals| == count > 0 && cache.trace.virtuals[count - 1] == Runs.CODE + LoadAt(k)
    requires Runs.CODE_RANGE + 3 * k + 2 !in rs
    modifies cache`trace, cache`plain
    ensures Along(cache, count, rs + [Runs.CODE_RANGE + 3 * k + 2], next)
  {
    hide BlockCache.Kept, TraceOk, NoneTouched, CountOk, AheadInLine, Runs.CodeWord, Runs.At, Loaded, Chain, RangeOf, DecodeLiteral,
      Bytes, Runs.FetchedAt;
    ghost var b := cache.trace;
    LiteralPlace(k);
    var folded := cache.RecordLiteral(DecodeLiteral(true, Runs.CODE + LoadAt(k), 0x80, true));
    LoadedWithLiteral(b, 0x80, Bytes(cache.mem, LiteralBase(cache.localise(DecodeLiteral(true, Runs.CODE + LoadAt(k), 0x80, true))), 4),
      cache.trace.ranges, Runs.At());
  }

  // The load and the branch of piece k, in three ranges.
  method Piece(cache: BlockCache, k: nat, ghost rs: seq<Range>) returns (ghost rs': seq<Range>)
    requires Along(cache, 2 * k, rs, LoadAt(k)) && k < 11 && Below(rs, k) && Decoded(cache.endsBlock)
    requires cache.args.literalOptimizations && 2 * k + 1 < cache.args.maxBlockSize && !cache.endBlock
    modifies cache`trace, cache`pipeline, cache`count, cache`endBlock, cache`plain
    ensures Along(cache, 2 * k + 2, rs', LoadAt(k) + 4) && |rs'| == |rs| + 3 && Below(rs', k + 1)
    ensures cache.endBlock && cache.plain && MayFollow(cache.trace)
  {
    hide BlockCache.Inv, Runs.CodeWord, Runs.At, Loaded, RangeOf, Runs.FetchedAt, LinkPrefix, LinkSuffix;
    Places(k);
    Next(cache, 2 * k, rs, LoadAt(k), LOAD);
    Fold(cache, 2 * k + 1, rs + [Runs.CODE_RANGE + 3 * k], LoadAt(k) + 2, k);
    rs' := rs + [Runs.CODE_RANGE + 3 * k] + [Runs.CODE_RANGE + 3 * k + 2];
    Next(cache, 2 * k + 1, rs', LoadAt(k) + 2, B);
    rs' := rs' + [Runs.CODE_RANGE + 3 * k + 1];
    NoLink(cache.trace);
  }

  method Follow(cache: BlockCache, ghost count: nat, ghost rs: seq<Range>, ghost next: nat, target: nat)
    requires Along(cache, count, rs, next) && 0 < count < cache.args.maxBlockSize && target % 2 == 0 && target < 0x7000
    requires cache.args.Follows() && cache.endBlock && cache.plain && MayFollow(cache.trace)
    modifies cache`pipeline, cache`endBlock, cache`plain
    ensures Along(cache, count, rs, target) && !cache.endBlock
  {
    hide BlockCache.Inv, Runs.CodeWord, Runs.At, Loaded, Chain, Fetch, MayFollow;
    Runs.FetchAt(cache.mem, target);
    Runs.FetchAt(cache.mem, target + 2);
    cache.FollowBranch(Runs.CODE + target);
  }

  const NOTHING: Word := [0, 0]

  lemma ChainMore(mem: Memory, n: nat)
    requires Chain(mem, n) && n < 11
    ensures Chain(mem + Runs.Store(LoadAt(n) - 2, NOTHING + LOAD) + Runs.Store(LoadAt(n) + 2, B + NOTHING), n + 1)
  {
    hide Runs.CodeWord, Runs.Store;
    var mem1 := mem + Runs.Store(LoadAt(n) - 2, NOTHING + LOAD);
    var mem2 := mem1 + Runs.Store(LoadAt(n) + 2, B + NOTHING);
    Runs.StoredHalves(mem, LoadAt(n) - 2, NOTHING, LOAD);
    Runs.StoredHalves(mem1, LoadAt(n) + 2, B, NOTHING);
    Runs.StoredBeside(mem1, LoadAt(n) + 2, B + NOTHING, LoadAt(n));
    forall k: nat | k < n ensures Runs.CodeWord(mem2, LoadAt(k)) == LOAD && Runs.CodeWord(mem2, LoadAt(k) + 2) == B {
      Runs.StoredBeside(mem, LoadAt(n) - 2, NOTHING + LOAD, LoadAt(k));
      Runs.StoredBeside(mem, LoadAt(n) - 2, NOTHING + LOAD, LoadAt(k) + 2);
      Runs.StoredBeside(mem1, LoadAt(n) + 2, B + NOTHING, LoadAt(k));
      Runs.StoredBeside(mem1, LoadAt(n) + 2, B + NOTHING, LoadAt(k) + 2);
    }
  }

  // The code is stored, and a trace of it begins.
  method Prepare(args: JitArgs, endsBlock: Decoding) returns (cache: BlockCache)
    ensures fresh(cache) && fresh(cache.memory) && cache.args == args.Clamped() && cache.endsBlock == endsBlock && !cache.endBlock
    ensures Along(cache, 0, [], LoadAt(0))
  {
    hide Runs.Idle, Runs.Store, Chain, BlockCache.Inv, BlockCache.Sound, Runs.ThumbTrace, Runs.Along;
    cache := Runs.Prepare(args, endsBlock);
    NoChain(cache.mem);
    for k := 0 to 11
      invariant Runs.Idle(cache) && cache.State() == Tables(map[], map[], map[], cache.fast) && cache.args == args.Clamped()
      invariant Chain(cache.mem, k) && cache.invalidLiterals == {}
    {
      ChainMore(cache.mem, k);
      Runs.StoreFirst(cache, LoadAt(k) - 2, NOTHING + LOAD);
      Runs.StoreFirst(cache, LoadAt(k) + 2, B + NOTHING);
    }
    Runs.Start(cache, LoadAt(0));
    Begun(cache);
  }

  lemma NoChain(mem: Memory)
    ensures Chain(mem, 0)
  {
  }

  lemma Begun(cache: BlockCache)
    requires Runs.Along(cache, Runs.ThumbTrace(LoadAt(0), [], [], [], {}), LoadAt(0)) && Chain(cache.mem, 11) && cache.invalidLiterals == {}
    ensures Along(cache, 0, [], LoadAt(0))
  {
    hide BlockCache.Inv;
  }

  /**
    Under all other settings a trace can have more ranges than its array: here 11 loads and 11
    branches, each followed to the next load, lie in 33 ranges with their literals.
  */
  method FillsRanges(args: JitArgs, endsBlock: Decoding) returns (cache: BlockCache)
    requires !RangesFit(args.Clamped()) && Decoded(endsBlock)
    ensures fresh(cache) && cache.args == args.Clamped() && cache.Inv() && cache.compilingBlock
    ensures Loaded(cache.trace, cache.localise) && |cache.trace.ranges| > MAX_BLOCK_SIZE
  {
    hide BlockCache.Inv, Chain, Loaded;
    cache := Prepare(args, endsBlock);
    ghost var rs: seq<Range> := [];
    for k := 0 to 10
      invariant Along(cache, 2 * k, rs, LoadAt(k)) && cache.args == args.Clamped() && fresh(cache) && cache.endsBlock == endsBlock
      invariant |rs| == 3 * k && Below(rs, k) && !cache.endBlock
    {
      rs := Piece(cache, k, rs);
      Follow(cache, 2 * k + 2, rs, LoadAt(k) + 4, LoadAt(k + 1));
    }
    rs := Piece(cache, 10, rs);
  }
}
