/**
  What CompileBlock records while it interprets a trace (src/ARMJIT.cpp): the words as they were
  prefetched, the literals, and the ranges and granules they came from. The trace's own writes
  are logged, so each recorded byte is still in memory or its granule is in the log.
*/
module TraceRecording {
  import Bits
  import opened CodeIndex
  import opened Lists
  import opened CompiledBlocks

  // Where code at a virtual address is; 0 where no code can be.
  type Localisation = nat -> Local

  // Whether an instruction of a CPU, in ARM or Thumb state, ends its block unless it is a branch
  // that the trace goes on behind.
  type Decoding = (nat, bool, Word) -> bool

  // Memory is mapped in whole ranges.
  ghost predicate Ranged(at: Localisation) {
    && (forall v: nat :: at(v) != 0 ==> at(v) % 512 == v % 512 && RegionOf(at(v)) > 0)
    && (forall u: nat, v: nat | RangeOf(u) == RangeOf(v) :: RangeOf(at(u)) == RangeOf(at(v)))
  }

  // A word in the instruction pipeline, with the addresses it was fetched from.
  datatype Fetched = Fetched(virt: nat, addr: Local, word: Word)

  // Two halves of a Thumb branch with link, which are merged. The second half says whether the
  // state changes.
  predicate LinkPrefix(thumb: bool, w: Word) { thumb && |w| >= 2 && w[1] / 8 == 0x1E }

  predicate LinkSuffix(thumb: bool, w: Word) { thumb && |w| >= 2 && w[1] / 8 in {0x1D, 0x1F} }

  predicate HalfLink(b: Block) { b.words != [] && LinkPrefix(b.thumb, b.words[|b.words| - 1]) }

  predicate Merges(b: Block, w: Word) { HalfLink(b) && LinkSuffix(b.thumb, w) }

  // The latest instruction has been merged from two words.
  predicate Linked(b: Block) {
    && |b.words| >= 2 && LinkPrefix(b.thumb, b.words[|b.words| - 2]) && LinkSuffix(b.thumb, b.words[|b.words| - 1])
  }

  // Of a merged branch with link, bit 12 of the first half is looked at before it is followed.
  predicate MayFollow(b: Block) { Linked(b) ==> b.words[|b.words| - 2][1] / 16 % 2 == 0 }

  // It is set in all of them, so a branch with link ends its trace.
  lemma LinkEnds(b: Block)
    ensures MayFollow(b) <==> !Linked(b)
  {
  }

  // How often the next address is not that of the next instruction.
  function Jumps(virtuals: seq<nat>, step: nat): (n: nat)
  {
    var n := |virtuals|;
    if n < 2 then 0
    else Jumps(virtuals[..n - 1], step) + if virtuals[n - 1] == virtuals[n - 2] + step then 0 else 1
  }

  function Bytes(mem: Memory, a: Local, n: nat): (w: Word)
    ensures |w| == n && forall i | 0 <= i < n :: w[i] == Read(mem, a + i)
  {
    seq(n, (i: nat) => Read(mem, a + i))
  }

  function Fetch(mem: Memory, num: nat, thumb: bool, at: Localisation, virt: nat): Fetched {
    Fetched(virt, at(virt), Bytes(mem, at(virt), FetchWidth(num, thumb, virt)))
  }

  // A prefetched word is still in memory, or its granule has been written since.
  ghost predicate FetchOk(f: Fetched, num: nat, thumb: bool, mem: Memory, log: seq<Local>) {
    && f.virt % 2 == 0 && (thumb || f.virt % 4 == 0) && |f.word| == FetchWidth(num, thumb, f.virt)
    && (f.addr != 0 ==> f.addr % 4 == f.virt % 4 && (Holds(mem, f.addr, f.word) || Logged(log, f.addr)))
  }

  ghost predicate Holds(mem: Memory, a: Local, w: Word) {
    forall i | 0 <= i < |w| :: Read(mem, a + i) == w[i]
  }

  ghost predicate LogInRange(log: seq<Local>, ranges: nat) {
    forall j | 0 <= j < |log| :: RangeOf(log[j]) < ranges
  }

  // What the instructions of a trace, a merged pair being one, need of its arrays: such a pair is the
  // last one, and an instruction that is followed has no literal. `plain` tells that the latest one
  // has neither been followed nor had its literal folded.
  ghost predicate CountOk(b: Block, next: nat, count: nat, ended: bool, plain: bool, args: JitArgs) {
    && |b.virtuals| == |b.words| == count + (if Linked(b) then 1 else 0) && |b.words| <= args.maxBlockSize
    && (Linked(b) ==> ended)
    && |b.literals| + Jumps(b.virtuals + [next], b.Step()) + (if plain then 1 else 0) <= |b.words|
    && RangesUsed(b)
  }

  // Each range has an instruction or a literal.
  ghost predicate RangesUsed(b: Block) {
    forall r | r in b.ranges ::
      || (exists k | 0 <= k < |b.addrs| :: RangeOf(b.addrs[k]) == r)
      || (exists l | l in b.literals :: RangeOf(l) == r)
  }

  // What has been recorded so far: the trace's footprint covers it, and what is no longer in
  // memory has been logged.
  ghost predicate TraceOk(trace: Block, pipeline: seq<Fetched>, mem: Memory, log: seq<Local>, ranges: nat, at: Localisation) {
    && StartOk(trace.num, trace.thumb, trace.startAddr, trace.startAddrLocal, ranges)
    && FootprintOk(trace, ranges) && FreshOrLogged(trace, mem, log)
    && LogInRange(log, ranges) && |pipeline| == 2
    && FetchOk(pipeline[0], trace.num, trace.thumb, mem, log) && FetchOk(pipeline[1], trace.num, trace.thumb, mem, log)
    && Traced(trace, pipeline, at)
  }

  // The path so far, and that what is in the pipeline comes next.
  ghost predicate Traced(trace: Block, pipeline: seq<Fetched>, at: Localisation)
    requires |pipeline| == 2
  {
    && Ranged(at) && PathOk(trace) && (trace.hasRemapDependency <==> Embeds(trace))
    && trace.startAddrLocal == at(trace.startAddr) && (trace.addrs == [] ==> pipeline[0].virt == trace.startAddr)
    && (forall k | 0 <= k < |trace.addrs| :: trace.addrs[k] == at(trace.virtuals[k]))
    && pipeline[0].addr == at(pipeline[0].virt) && pipeline[1].addr == at(pipeline[1].virt)
    && pipeline[1].virt == pipeline[0].virt + trace.Step() && (trace.addrs == [] ==> trace.ranges == [])
  }

  // No branch has been followed, and the pipeline goes on where the trace is.
  ghost predicate AheadInLine(trace: Block, pipeline: seq<Fetched>)
    requires |pipeline| == 2
  {
    InLine(trace) && pipeline[0].virt == trace.startAddr + |trace.virtuals| * trace.Step()
  }

  // No live block depends on anything that has been written since the trace began.
  ghost predicate NoneTouched(blocks: Blocks, keyMap: KeyMap, log: seq<Local>) {
    forall j | 0 <= j < |log| :: NoLiveDepends(blocks, keyMap, log[j])
  }

  function NewTrace(num: nat, thumb: bool, addr: nat, local: Local): Block {
    Block(num, thumb, addr, local, [], [], [], [], [], [], map[], false)
  }

  // The ranges of a trace: the range of its latest instruction comes last, and a literal's range
  // is appended if it is new.
  ghost predicate AddedRange(ranges: seq<Range>, ranges': seq<Range>, r: Range) {
    Distinct(ranges') && forall x :: x in ranges' <==> x in ranges || x == r
  }

  // Range r is the last one now: it has been appended, or has changed places with what was last.
  ghost predicate Moved(ranges: seq<Range>, moved: seq<Range>, r: Range) {
    if r in ranges
    then exists j | 0 <= j < |ranges| :: ranges[j] == r && moved == ranges[j := ranges[|ranges| - 1]][|ranges| - 1 := r]
    else moved == ranges + [r]
  }

  lemma MovedIsOne(ranges: seq<Range>, moved: seq<Range>, moved': seq<Range>, r: Range)
    requires Distinct(ranges) && Moved(ranges, moved, r) && Moved(ranges, moved', r)
    ensures moved == moved'
  {
  }

  method MoveToEnd(ranges: seq<Range>, r: Range) returns (moved: seq<Range>)
    requires Distinct(ranges)
    ensures AddedRange(ranges, moved, r) && |moved| > 0 && moved[|moved| - 1] == r && Moved(ranges, moved, r)
    ensures |moved| <= |ranges| + 1
  {
    if ranges != [] && ranges[|ranges| - 1] == r {
      assert ranges[|ranges| - 1 := ranges[|ranges| - 1]][|ranges| - 1 := r] == ranges;
      return ranges;
    }
    for j := 0 to |ranges|
      invariant r !in ranges[..j]
    {
      if ranges[j] == r {
        moved := ranges[j := ranges[|ranges| - 1]][|ranges| - 1 := r];
        SwappedElements(ranges, j, moved);
        return;
      }
    }
    return ranges + [r];
  }

  lemma SwappedElements(s: seq<Range>, j: nat, t: seq<Range>)
    requires Distinct(s) && j < |s| && t == s[j := s[|s| - 1]][|s| - 1 := s[j]]
    ensures Distinct(t) && forall x :: x in t <==> x in s
  {
    forall x | x in s ensures x in t {
      var i :| 0 <= i < |s| && s[i] == x;
      assert t[if i == j then |s| - 1 else if i == |s| - 1 then j else i] == x;
    }
  }

  method AppendIfNew(ranges: seq<Range>, r: Range) returns (appended: seq<Range>)
    requires Distinct(ranges)
    ensures AddedRange(ranges, appended, r)
    ensures appended == if r in ranges then ranges else ranges + [r]
  {
    for j := 0 to |ranges|
      invariant r !in ranges[..j]
    {
      if ranges[j] == r {
        return ranges;
      }
    }
    return ranges + [r];
  }

  function AddMask(masks: map<Range, Mask>, a: Local): map<Range, Mask> {
    var r := RangeOf(a);
    masks[r := (if r in masks then masks[r] else {}) + {GranuleOf(a)}]
  }

  // What a word at a contributes to the sources.
  ghost predicate WordAt(x: (Local, Byte), a: Local, w: Word) {
    exists i | 0 <= i < |w| :: x == (a + i, w[i])
  }

  // Trace b with one more word, at address a with range list rs.
  ghost predicate Grown(b: Block, b': Block, a: Local, w: Word, rs: seq<Range>) {
    && ShapeOk(b') && AddedRange(b.ranges, rs, RangeOf(a)) && b'.ranges == rs && b'.masks == AddMask(b.masks, a)
    && forall x | x in Sources(b') :: ShapeOk(b) && (x in Sources(b) || WordAt(x, a, w))
  }

  // The trace with one more instruction, and one with one more literal.
  function WithInstruction(b: Block, f: Fetched, rs: seq<Range>): Block {
    b.(virtuals := b.virtuals + [f.virt], addrs := b.addrs + [f.addr], words := b.words + [f.word], ranges := rs,
       masks := AddMask(b.masks, f.addr),
       hasRemapDependency := b.hasRemapDependency || OtherWindow(f.addr, f.virt, b.startAddrLocal, b.startAddr))
  }

  function WithLiteral(b: Block, a: Local, w: Word, rs: seq<Range>): Block {
    b.(literals := b.literals + [a], literalWords := b.literalWords + [w], ranges := rs, masks := AddMask(b.masks, a))
  }

  lemma InstructionCounts(b: Block, f: Fetched, rs: seq<Range>, count: nat, count': nat, ended: bool, ended': bool, plain: bool, args: JitArgs)
    requires CountOk(b, f.virt, count, ended, plain, args) && (b.words == [] ==> args.maxBlockSize > 0)
    requires b.words != [] ==> !ended && count < args.maxBlockSize
    requires count' == (if Merges(b, f.word) then count else count + 1)
    requires (Merges(b, f.word) ==> ended') && AddedRange(b.ranges, rs, RangeOf(f.addr))
    ensures CountOk(WithInstruction(b, f, rs), f.virt + b.Step(), count', ended', true, args)
  {
    var b' := WithInstruction(b, f, rs);
    InstructionUses(b, f, rs);
    JumpMore(b.virtuals + [f.virt], f.virt + b.Step(), b.Step());
    hide RangesUsed, AddedRange, Jumps, LinkPrefix, LinkSuffix;
    assert |b.words| > 0 ==> b'.words[|b'.words| - 2] == b.words[|b.words| - 1];
    assert Linked(b') <==> Merges(b, f.word);
  }

  lemma JumpMore(virtuals: seq<nat>, next: nat, step: nat)
    requires virtuals != []
    ensures var more := if next == virtuals[|virtuals| - 1] + step then 0 else 1;
      Jumps(virtuals + [next], step) == Jumps(virtuals, step) + more
  {
    assert (virtuals + [next])[..|virtuals|] == virtuals;
  }

  // While a trace goes on, another word fits.
  lemma RoomForWord(b: Block, next: nat, count: nat, ended: bool, plain: bool, args: JitArgs)
    requires CountOk(b, next, count, ended, plain, args)
    ensures b.words == [] || (!ended && count < args.maxBlockSize) ==> |b.virtuals| == |b.words| && (b.words == [] || |b.words| < args.maxBlockSize)
  {
  }

  lemma InstructionUses(b: Block, f: Fetched, rs: seq<Range>)
    requires RangesUsed(b) && AddedRange(b.ranges, rs, RangeOf(f.addr))
    ensures RangesUsed(WithInstruction(b, f, rs))
  {
    hide RangeOf;
    var b' := WithInstruction(b, f, rs);
    assert b'.addrs[|b.addrs|] == f.addr;
    forall r | r in rs && r != RangeOf(f.addr)
      ensures (exists k | 0 <= k < |b'.addrs| :: RangeOf(b'.addrs[k]) == r) || (exists l | l in b'.literals :: RangeOf(l) == r)
    {
      if k :| 0 <= k < |b.addrs| && RangeOf(b.addrs[k]) == r {
        assert b'.addrs[k] == b.addrs[k];
      }
    }
  }

  // The trace goes on behind a branch, or where it leads.
  lemma BranchCounts(b: Block, next: nat, next': nat, count: nat, ended: bool, plain: bool, plain': bool, args: JitArgs)
    requires CountOk(b, next, count, ended, plain, args) && !Linked(b)
    requires (next' == next && plain' == plain) || (plain && !plain')
    ensures CountOk(b, next', count, false, plain', args)
  {
    if b.virtuals != [] {
      JumpMore(b.virtuals, next, b.Step());
      JumpMore(b.virtuals, next', b.Step());
    }
    hide RangesUsed, Jumps, Linked;
  }

  lemma NoneCounted(num: nat, thumb: bool, addr: nat, local: Local, args: JitArgs)
    ensures CountOk(NewTrace(num, thumb, addr, local), addr, 0, false, false, args)
    ensures NewTrace(num, thumb, addr, local).literals == []
  {
  }

  lemma FetchVirtual(mem: Memory, num: nat, thumb: bool, at: Localisation, virt: nat)
    ensures Fetch(mem, num, thumb, at, virt).virt == virt
  {
  }

  lemma LiteralCounts(b: Block, next: nat, a: Local, w: Word, rs: seq<Range>, count: nat, ended: bool, args: JitArgs)
    requires CountOk(b, next, count, ended, true, args) && AddedRange(b.ranges, rs, RangeOf(a))
    ensures CountOk(WithLiteral(b, a, w, rs), next, count, ended, false, args)
  {
    var b' := WithLiteral(b, a, w, rs);
    assert b'.literals[|b.literals|] == a;
    assert Linked(b') == Linked(b);
    hide Linked, Jumps;
    forall r | r in rs && r != RangeOf(a)
      ensures (exists k | 0 <= k < |b'.addrs| :: RangeOf(b'.addrs[k]) == r) || (exists l | l in b'.literals :: RangeOf(l) == r)
    {
      if l :| l in b.literals && RangeOf(l) == r {
        assert l in b'.literals;
      }
    }
  }

  lemma InstructionGrows(b: Block, f: Fetched, rs: seq<Range>)
    requires ShapeOk(b) && AddedRange(b.ranges, rs, RangeOf(f.addr))
    ensures Grown(b, WithInstruction(b, f, rs), f.addr, f.word, rs)
  {
    var b' := WithInstruction(b, f, rs);
    forall x | x in Sources(b') ensures x in Sources(b) || WordAt(x, f.addr, f.word) {
      if x in BytesAt(b'.addrs, b'.words) {
        var k, i :| 0 <= k < |b'.addrs| && 0 <= i < |b'.words[k]| && x == (b'.addrs[k] + i, b'.words[k][i]);
        if k < |b.addrs| {
          assert x == (b.addrs[k] + i, b.words[k][i]);
        }
      }
    }
  }

  // The path of the trace goes on with the instruction in front of the pipeline.
  lemma InstructionTraced(b: Block, pipeline: seq<Fetched>, at: Localisation, rs: seq<Range>)
    requires |pipeline| == 2 && Traced(b, pipeline, at) && |b.addrs| < MAX_BLOCK_SIZE
    requires pipeline[0].addr != 0 && |pipeline[0].word| == FetchWidth(b.num, b.thumb, pipeline[0].virt)
    requires AddedRange(b.ranges, rs, RangeOf(pipeline[0].addr)) && rs != [] && rs[|rs| - 1] == RangeOf(pipeline[0].addr)
    ensures var b' := WithInstruction(b, pipeline[0], rs);
      && PathOk(b') && (b'.hasRemapDependency <==> Embeds(b'))
      && (forall k | 0 <= k < |b'.addrs| :: b'.addrs[k] == at(b'.virtuals[k]))
  {
    hide RangeOf, OtherWindow, AddMask, FetchWidth, Embeds, RangesOfPath, PathOk;
    var f, b' := pipeline[0], WithInstruction(b, pipeline[0], rs);
    PathLonger(b, f, at, rs);
    PathParts(b);
    AddMaskKeeps(b.masks, f.addr);
    EmbedsMore(b, f, rs);
    if b.literals == [] {
      RangesOfLonger(b, f, rs);
    }
    PathFromParts(b', at);
  }

  lemma AddMaskKeeps(masks: map<Range, Mask>, a: Local)
    ensures RangeOf(a) in AddMask(masks, a) && forall r | r in masks :: r in AddMask(masks, a)
  {
  }

  // A literal does not change the path.
  lemma LiteralTraced(b: Block, pipeline: seq<Fetched>, at: Localisation, a: Local, w: Word, rs: seq<Range>)
    requires |pipeline| == 2 && Traced(b, pipeline, at) && b.addrs != []
    ensures Traced(WithLiteral(b, a, w, rs), pipeline, at)
  {
    hide RangeOf, FetchWidth, RangesOfPath, AddMask, OtherWindow, Ranged;
    var b' := WithLiteral(b, a, w, rs);
    AddMaskKeeps(b.masks, a);
    assert Embeds(b') <==> Embeds(b);
  }

  lemma PathParts(b: Block)
    requires PathOk(b)
    ensures |b.virtuals| == |b.addrs| == |b.words|
    ensures b.addrs != [] ==> b.virtuals[0] == b.startAddr && b.addrs[0] == b.startAddrLocal
    ensures b.literals == [] && b.addrs != [] ==> RangesOfPath(b.ranges, b.addrs)
    ensures forall l | l in b.literals :: RangeOf(l) in b.masks
  {
  }

  // The instruction words of a trace and one more, each at its place.
  lemma PathLonger(b: Block, f: Fetched, at: Localisation, rs: seq<Range>)
    requires PathOk(b) && Ranged(at) && f.addr != 0 && f.addr == at(f.virt) && |f.word| == FetchWidth(b.num, b.thumb, f.virt)
    requires forall k | 0 <= k < |b.addrs| :: b.addrs[k] == at(b.virtuals[k])
    ensures var b' := WithInstruction(b, f, rs);
      forall k | 0 <= k < |b'.addrs| ::
        && k < |b'.virtuals| && k < |b'.words| && b'.addrs[k] == at(b'.virtuals[k]) && b'.virtuals[k] % 512 == b'.addrs[k] % 512
        && |b'.words[k]| == FetchWidth(b.num, b.thumb, b'.virtuals[k])
  {
    hide RangeOf, OtherWindow, AddMask, FetchWidth, RangesOfPath;
    var b' := WithInstruction(b, f, rs);
    forall k | 0 <= k < |b'.addrs|
      ensures b'.addrs[k] == at(b'.virtuals[k]) && b'.virtuals[k] % 512 == b'.addrs[k] % 512
      ensures |b'.words[k]| == FetchWidth(b.num, b.thumb, b'.virtuals[k])
    {
      if k < |b.addrs| {
        assert b'.addrs[k] == b.addrs[k] && b'.virtuals[k] == b.virtuals[k] && b'.words[k] == b.words[k];
      }
    }
  }

  lemma PathFromParts(b: Block, at: Localisation)
    requires |b.virtuals| == |b.addrs| == |b.words| <= MAX_BLOCK_SIZE && Ranged(at)
    requires b.addrs != [] ==> b.virtuals[0] == b.startAddr && b.addrs[0] == b.startAddrLocal
    requires forall k | 0 <= k < |b.addrs| ::
      b.addrs[k] == at(b.virtuals[k]) && b.virtuals[k] % 512 == b.addrs[k] % 512
      && |b.words[k]| == FetchWidth(b.num, b.thumb, b.virtuals[k])
    requires b.literals == [] && b.addrs != [] ==> RangesOfPath(b.ranges, b.addrs)
    requires forall l | l in b.literals :: RangeOf(l) in b.masks
    ensures PathOk(b)
  {
    hide RangeOf, FetchWidth, RangesOfPath;
  }

  lemma EmbedsMore(b: Block, f: Fetched, rs: seq<Range>)
    requires |b.virtuals| == |b.addrs|
    ensures Embeds(WithInstruction(b, f, rs)) <==> Embeds(b) || OtherWindow(f.addr, f.virt, b.startAddrLocal, b.startAddr)
  {
    hide OtherWindow, AddMask;
    var b' := WithInstruction(b, f, rs);
    assert b'.addrs[|b.addrs|] == f.addr && b'.virtuals[|b.addrs|] == f.virt;
    if Embeds(b) {
      var k :| 0 <= k < |b.addrs| && OtherWindow(b.addrs[k], b.virtuals[k], b.startAddrLocal, b.startAddr);
      assert b'.addrs[k] == b.addrs[k] && b'.virtuals[k] == b.virtuals[k];
    }
  }

  lemma RangesOfLonger(b: Block, f: Fetched, rs: seq<Range>)
    requires AddedRange(b.ranges, rs, RangeOf(f.addr)) && rs != [] && rs[|rs| - 1] == RangeOf(f.addr)
    requires (b.addrs != [] ==> RangesOfPath(b.ranges, b.addrs)) && (b.addrs == [] ==> b.ranges == [])
    ensures RangesOfPath(rs, b.addrs + [f.addr])
  {
    hide RangeOf;
    var addrs := b.addrs + [f.addr];
    forall r | r in rs ensures exists k | 0 <= k < |addrs| :: RangeOf(addrs[k]) == r {
      if r in b.ranges {
        var k :| 0 <= k < |b.addrs| && RangeOf(b.addrs[k]) == r;
        assert addrs[k] == b.addrs[k];
      } else {
        assert addrs[|b.addrs|] == f.addr;
      }
    }
    forall k | 0 <= k < |addrs| ensures RangeOf(addrs[k]) in rs {
      assert k < |b.addrs| ==> addrs[k] == b.addrs[k];
    }
  }

  lemma LiteralGrows(b: Block, a: Local, w: Word, rs: seq<Range>)
    requires ShapeOk(b) && AddedRange(b.ranges, rs, RangeOf(a))
    ensures Grown(b, WithLiteral(b, a, w, rs), LiteralBase(a), w, rs)
  {
    var b' := WithLiteral(b, a, w, rs);
    LiteralInGranule(a);
    hide RangeOf, GranuleOf, AddedRange, LiteralBase;
    var ls, ls' := LiteralBases(b.literals), LiteralBases(b'.literals);
    forall x | x in Sources(b') ensures x in Sources(b) || WordAt(x, LiteralBase(a), w) {
      if x in BytesAt(ls', b'.literalWords) {
        var k, i :| 0 <= k < |ls'| && 0 <= i < |b'.literalWords[k]| && x == (ls'[k] + i, b'.literalWords[k][i]);
        if k < |b.literals| {
          assert ls'[k] == ls[k] && b'.literalWords[k] == b.literalWords[k];
          assert x in BytesAt(ls, b.literalWords);
        }
      }
    }
  }

  // A word lies in the granule of its address.
  lemma WordInGranule(a: Local, n: nat, i: nat)
    requires i < n && n in {2, 4} && a % n == 0
    ensures GranuleOf(a + i) == GranuleOf(a) && RangeOf(a + i) == RangeOf(a)
  {
    if n == 2 {
      assert a % 2 == 0;
    } else {
      assert a % 4 == 0;
    }
    assert GranuleOf(a + i) == GranuleOf(a);
    SameGranuleSameRange(a + i, a);
  }

  lemma LiteralInGranule(a: Local)
    ensures GranuleOf(LiteralBase(a)) == GranuleOf(a) && RangeOf(LiteralBase(a)) == RangeOf(a)
  {
    assert a == LiteralBase(a) + a % 4;
    WordInGranule(LiteralBase(a), 4, a % 4);
  }

  lemma GrownFootprint(b: Block, b': Block, a: Local, w: Word, rs: seq<Range>, ranges: nat)
    requires FootprintOk(b, ranges) && Grown(b, b', a, w, rs)
    requires |w| in {2, 4} && a % |w| == 0 && RangeOf(a) < ranges
    ensures FootprintOk(b', ranges)
  {
    assert MaskOk(RangeOf(a), AddMask(b.masks, a)[RangeOf(a)]);
    forall x | x in Sources(b') ensures b'.Depends(x.0) {
      if x in Sources(b) {
        assert b.Depends(x.0);
      } else {
        var i: nat :| i < |w| && x == (a + i, w[i]);
        WordInGranule(a, |w|, i);
      }
    }
  }

  lemma GrownFresh(b: Block, b': Block, a: Local, w: Word, rs: seq<Range>, mem: Memory, log: seq<Local>)
    requires ShapeOk(b) && FreshOrLogged(b, mem, log) && Grown(b, b', a, w, rs)
    requires |w| in {2, 4} && a % |w| == 0 && (Holds(mem, a, w) || Logged(log, a))
    ensures FreshOrLogged(b', mem, log)
  {
    forall x | x in Sources(b') && x !in Sources(b) ensures Read(mem, x.0) == x.1 || Logged(log, x.0) {
      var i: nat :| i < |w| && x == (a + i, w[i]);
      WordInGranule(a, |w|, i);
    }
  }

  // A trace that is about to begin.
  lemma NewTraceOk(num: nat, thumb: bool, addr: nat, at: Localisation, mem: Memory, ranges: nat)
    requires StartOk(num, thumb, addr, at(addr), ranges) && Ranged(at) && addr % 2 == 0 && (!thumb ==> addr % 4 == 0)
    ensures var b := NewTrace(num, thumb, addr, at(addr));
      var pipeline := [Fetch(mem, num, thumb, at, addr), Fetch(mem, num, thumb, at, addr + b.Step())];
      TraceOk(b, pipeline, mem, [], ranges, at) && AheadInLine(b, pipeline)
  {
    StepAligned(thumb, addr);
    FetchedNow(mem, num, thumb, at, addr, []);
    FetchedNow(mem, num, thumb, at, addr + if thumb then 2 else 4, []);
    NothingTraced(num, thumb, addr, at(addr), mem, ranges);
    hide FetchOk, Ranged, StartOk, FootprintOk, FreshOrLogged, PathOk, Embeds, RangeOf, FetchWidth, Bytes;
  }

  lemma NothingTraced(num: nat, thumb: bool, addr: nat, local: Local, mem: Memory, ranges: nat)
    ensures var b := NewTrace(num, thumb, addr, local);
      FootprintOk(b, ranges) && FreshOrLogged(b, mem, []) && PathOk(b) && !Embeds(b)
  {
    assert Sources(NewTrace(num, thumb, addr, local)) == {};
  }

  // Recording changes neither the key of a trace nor its steps.
  lemma WithSame(b: Block, f: Fetched, rs: seq<Range>)
    ensures var b' := WithInstruction(b, f, rs);
      && b'.Key() == b.Key() && b'.num == b.num && b'.thumb == b.thumb && b'.ranges == rs && b'.literals == b.literals
  {
  }

  lemma WithLiteralSame(b: Block, a: Local, w: Word, rs: seq<Range>)
    ensures var b' := WithLiteral(b, a, w, rs);
      && b'.Key() == b.Key() && b'.num == b.num && b'.thumb == b.thumb && b'.ranges == rs
  {
  }

  lemma NoneTouchedYet(blocks: Blocks, keyMap: KeyMap)
    ensures NoneTouched(blocks, keyMap, [])
  {
  }

  lemma PipelineSteps(b: Block, pipeline: seq<Fetched>, mem: Memory, log: seq<Local>, ranges: nat, at: Localisation)
    requires TraceOk(b, pipeline, mem, log, ranges, at)
    ensures |pipeline| == 2 && pipeline[1].virt == pipeline[0].virt + b.Step() && |b.addrs| == |b.words| && Distinct(b.ranges)
  {
  }

  lemma TraceParts(b: Block, pipeline: seq<Fetched>, mem: Memory, log: seq<Local>, ranges: nat, at: Localisation)
    requires TraceOk(b, pipeline, mem, log, ranges, at)
    ensures |pipeline| == 2 && ShapeOk(b) && Distinct(b.ranges) && Ranged(at) && pipeline[1].addr == at(pipeline[1].virt)
    ensures pipeline[1].virt == pipeline[0].virt + b.Step()
    ensures FetchOk(pipeline[1], b.num, b.thumb, mem, log)
  {
  }

  /** The instruction in front of the pipeline is recorded and the pipeline moves on. */
  lemma InstructionKeepsTrace(b: Block, pipeline: seq<Fetched>, pipeline': seq<Fetched>, mem: Memory, log: seq<Local>, ranges: nat,
                              at: Localisation, rs: seq<Range>)
    requires TraceOk(b, pipeline, mem, log, ranges, at) && |b.addrs| < MAX_BLOCK_SIZE
    requires pipeline[0].addr != 0 && RangeOf(pipeline[0].addr) < ranges
    requires AddedRange(b.ranges, rs, RangeOf(pipeline[0].addr)) && rs != [] && rs[|rs| - 1] == RangeOf(pipeline[0].addr)
    requires |pipeline'| == 2 && pipeline'[0] == pipeline[1] && FetchOk(pipeline'[1], b.num, b.thumb, mem, log)
    requires pipeline'[1].virt == pipeline[1].virt + b.Step() && pipeline'[1].addr == at(pipeline'[1].virt)
    ensures TraceOk(WithInstruction(b, pipeline[0], rs), pipeline', mem, log, ranges, at)
  {
    var f, b' := pipeline[0], WithInstruction(b, pipeline[0], rs);
    hide FootprintOk, FreshOrLogged, FetchOk, AddedRange, Grown, StartOk, Ranged, PathOk, Embeds, AddMask,
      OtherWindow, LogInRange, FetchWidth, RangeOf, ShapeOk;
    FootprintParts(b, ranges);
    FetchFits(f, b.num, b.thumb, mem, log);
    FetchFitsWidth(f, b.num, b.thumb, mem, log);
    InstructionGrows(b, f, rs);
    InstructionTraced(b, pipeline, at, rs);
    GrownFootprint(b, b', f.addr, f.word, rs, ranges);
    GrownFresh(b, b', f.addr, f.word, rs, mem, log);
  }

  /** A literal that is in memory enters the trace. */
  lemma LiteralKeepsTrace(b: Block, pipeline: seq<Fetched>, mem: Memory, log: seq<Local>, ranges: nat, at: Localisation, a: Local,
                          rs: seq<Range>)
    requires TraceOk(b, pipeline, mem, log, ranges, at) && b.addrs != [] && RangeOf(a) < ranges
    requires AddedRange(b.ranges, rs, RangeOf(a))
    ensures TraceOk(WithLiteral(b, a, Bytes(mem, LiteralBase(a), 4), rs), pipeline, mem, log, ranges, at)
    ensures WithLiteral(b, a, Bytes(mem, LiteralBase(a), 4), rs).Depends(a)
  {
    hide FootprintOk, FreshOrLogged, FetchOk, AddedRange, Grown, ShapeOk, StartOk, Ranged, PathOk, Embeds, LogInRange,
      AddMask, GranuleOf, RangeOf, OtherWindow, RangesOfPath, FetchWidth;
    var w := Bytes(mem, LiteralBase(a), 4);
    var b' := WithLiteral(b, a, w, rs);
    FootprintParts(b, ranges);
    LiteralGrows(b, a, w, rs);
    LiteralInGranule(a);
    LiteralTraced(b, pipeline, at, a, w, rs);
    LiteralHeld(mem, a);
    GrownFootprint(b, b', LiteralBase(a), w, rs, ranges);
    GrownFresh(b, b', LiteralBase(a), w, rs, mem, log);
    MaskAdded(b.masks, a);
  }

  lemma LiteralHeld(mem: Memory, a: Local)
    ensures LiteralBase(a) % 4 == 0 && Holds(mem, LiteralBase(a), Bytes(mem, LiteralBase(a), 4))
  {
  }

  lemma MaskAdded(masks: map<Range, Mask>, a: Local)
    ensures RangeOf(a) in AddMask(masks, a) && GranuleOf(a) in AddMask(masks, a)[RangeOf(a)]
  {
  }

  lemma AheadLonger(b: Block, pipeline: seq<Fetched>, pipeline': seq<Fetched>, rs: seq<Range>)
    requires |pipeline| == |pipeline'| == 2 && AheadInLine(b, pipeline)
    requires pipeline'[0] == pipeline[1] && pipeline[1].virt == pipeline[0].virt + b.Step()
    ensures AheadInLine(WithInstruction(b, pipeline[0], rs), pipeline')
  {
    hide OtherWindow, AddMask;
    NextMultiple(|b.virtuals|, b.Step());
  }

  // A trace goes on where its branch leads.
  lemma PipelineRefilled(b: Block, pipeline: seq<Fetched>, target: nat, mem: Memory, log: seq<Local>, ranges: nat, at: Localisation)
    requires TraceOk(b, pipeline, mem, log, ranges, at) && b.addrs != [] && target % 2 == 0 && (!b.thumb ==> target % 4 == 0)
    ensures var pipeline' := [Fetch(mem, b.num, b.thumb, at, target), Fetch(mem, b.num, b.thumb, at, target + b.Step())];
      TraceOk(b, pipeline', mem, log, ranges, at)
  {
    hide FootprintOk, FreshOrLogged, FetchOk, StartOk, Ranged, PathOk, Embeds, LogInRange, FetchWidth;
    StepAligned(b.thumb, target);
    FetchedNow(mem, b.num, b.thumb, at, target, log);
    FetchedNow(mem, b.num, b.thumb, at, target + b.Step(), log);
  }

  // All that recording an instruction keeps.
  lemma InstructionRecorded(b: Block, pipeline: seq<Fetched>, pipeline': seq<Fetched>, mem: Memory, log: seq<Local>, ranges: nat,
                            at: Localisation, rs: seq<Range>, count: nat, count': nat, ended: bool, ended': bool, plain: bool, args: JitArgs)
    requires TraceOk(b, pipeline, mem, log, ranges, at)
    requires pipeline[0].addr != 0 && RangeOf(pipeline[0].addr) < ranges
    requires AddedRange(b.ranges, rs, RangeOf(pipeline[0].addr)) && rs != [] && rs[|rs| - 1] == RangeOf(pipeline[0].addr)
    requires |pipeline'| == 2 && pipeline'[0] == pipeline[1] && FetchOk(pipeline'[1], b.num, b.thumb, mem, log)
    requires pipeline'[1].virt == pipeline[1].virt + b.Step() && pipeline'[1].addr == at(pipeline'[1].virt)
    requires CountOk(b, pipeline[0].virt, count, ended, plain, args) && 1 <= args.maxBlockSize <= MAX_BLOCK_SIZE
    requires b.addrs != [] ==> !ended && count < args.maxBlockSize
    requires count' == (if Merges(b, pipeline[0].word) then count else count + 1) && (Merges(b, pipeline[0].word) ==> ended')
    ensures var b' := WithInstruction(b, pipeline[0], rs);
      && TraceOk(b', pipeline', mem, log, ranges, at) && CountOk(b', pipeline'[0].virt, count', ended', true, args)
      && (AheadInLine(b, pipeline) ==> AheadInLine(b', pipeline'))
      && b'.Key() == b.Key() && b'.num == b.num && b'.thumb == b.thumb && b'.literals == b.literals
  {
    hide TraceOk, CountOk, AheadInLine, FetchOk, AddedRange, RangeOf, Ranged, WithInstruction, Merges, Block.Key, Distinct, ShapeOk, Block.Step;
    PipelineSteps(b, pipeline, mem, log, ranges, at);
    RoomForWord(b, pipeline[0].virt, count, ended, plain, args);
    InstructionCounts(b, pipeline[0], rs, count, count', ended, ended', plain, args);
    InstructionKeepsTrace(b, pipeline, pipeline', mem, log, ranges, at, rs);
    if AheadInLine(b, pipeline) {
      AheadLonger(b, pipeline, pipeline', rs);
    }
    WithSame(b, pipeline[0], rs);
  }

  lemma NextMultiple(n: nat, step: nat)
    ensures (n + 1) * step == n * step + step
  {
  }

  lemma LiteralAhead(b: Block, pipeline: seq<Fetched>, a: Local, w: Word, rs: seq<Range>)
    requires |pipeline| == 2
    ensures AheadInLine(b, pipeline) ==> AheadInLine(WithLiteral(b, a, w, rs), pipeline)
  {
    hide AddMask;
  }

  // Instructions stay aligned.
  lemma StepAligned(thumb: bool, virt: nat)
    requires virt % 2 == 0 && (thumb || virt % 4 == 0)
    ensures var next := virt + if thumb then 2 else 4; next % 2 == 0 && (thumb || next % 4 == 0)
  {
  }

  lemma FetchFitsWidth(f: Fetched, num: nat, thumb: bool, mem: Memory, log: seq<Local>)
    requires FetchOk(f, num, thumb, mem, log)
    ensures |f.word| == FetchWidth(num, thumb, f.virt)
  {
  }

  lemma FetchHalf(f: Fetched, num: nat, thumb: bool, mem: Memory, log: seq<Local>)
    requires FetchOk(f, num, thumb, mem, log)
    ensures |f.word| in {2, 4} && f.virt % 2 == 0
    ensures thumb && num == 0 && (f.virt + 2) % 4 == 2 ==> f.virt % 4 == 0
  {
    hide Holds, Logged;
  }

  lemma FetchFits(f: Fetched, num: nat, thumb: bool, mem: Memory, log: seq<Local>)
    requires FetchOk(f, num, thumb, mem, log) && f.addr != 0
    ensures |f.word| in {2, 4} && f.addr % |f.word| == 0
    ensures Holds(mem, f.addr, f.word) || Logged(log, f.addr)
  {
    hide Holds, Logged;
    EvenByWord(f.addr);
    EvenByWord(f.virt);
    assert |f.word| == 4 ==> f.virt % 4 == 0;
  }

  // A write that is logged keeps what has been recorded and prefetched.
  lemma LoggedWriteKeepsTrace(trace: Block, pipeline: seq<Fetched>, mem: Memory, log: seq<Local>, ranges: nat,
                              at: Localisation, a: Local, bytes: Memory)
    requires TraceOk(trace, pipeline, mem, log, ranges, at) && RangeOf(a) < ranges
    requires forall x | x in bytes :: GranuleOf(x) == GranuleOf(a)
    ensures TraceOk(trace, pipeline, mem + bytes, log + [a], ranges, at)
  {
    assert (log + [a])[|log|] == a;
    forall x: Local | Logged(log, x) ensures Logged(log + [a], x) {
      var j :| 0 <= j < |log| && GranuleOf(log[j]) == GranuleOf(x);
      assert (log + [a])[j] == log[j];
    }
    LoggedWriteKeepsFetch(pipeline[0], trace.num, trace.thumb, mem, log, a, bytes);
    LoggedWriteKeepsFetch(pipeline[1], trace.num, trace.thumb, mem, log, a, bytes);
  }

  lemma LoggedWriteKeepsFetch(f: Fetched, num: nat, thumb: bool, mem: Memory, log: seq<Local>, a: Local, bytes: Memory)
    requires FetchOk(f, num, thumb, mem, log)
    requires forall x | x in bytes :: GranuleOf(x) == GranuleOf(a)
    ensures FetchOk(f, num, thumb, mem + bytes, log + [a])
  {
    assert (log + [a])[|log|] == a;
    if Logged(log, f.addr) {
      var j :| 0 <= j < |log| && GranuleOf(log[j]) == GranuleOf(f.addr);
      assert (log + [a])[j] == log[j];
    } else if f.addr != 0 && GranuleOf(f.addr) != GranuleOf(a) {
      FetchFits(f, num, thumb, mem, log);
      forall i | 0 <= i < |f.word| ensures Read(mem + bytes, f.addr + i) == f.word[i] {
        WordInGranule(f.addr, |f.word|, i);
      }
    }
  }

  lemma TouchedOneMore(t: Tables, t': Tables, log: seq<Local>, a: Local)
    requires NoneTouched(t.blocks, t.keyMap, log) && Invalidated(t, t', a) && NoLiveDepends(t'.blocks, t'.keyMap, a)
    ensures NoneTouched(t'.blocks, t'.keyMap, log + [a])
  {
    hide Shed;
    forall j, x | 0 <= j < |log + [a]| && Live(t'.blocks, t'.keyMap, x) ensures !t'.blocks[x].Depends((log + [a])[j]) {
      if j < |log| {
        assert NoLiveDepends(t.blocks, t.keyMap, log[j]);
      }
    }
  }

  // A key without a block stays without one while blocks are only removed.
  lemma AbsentStays(t: Tables, t': Tables, key: Key, a: Local)
    requires Invalidated(t, t', a) && Owned(t'.blocks, t'.keyMap, t'.pool) && key !in t.keyMap
    ensures key !in t'.keyMap
  {
    hide Shed;
    assert key in t'.keyMap ==> Live(t'.blocks, t'.keyMap, t'.keyMap[key]);
  }

  lemma FootprintParts(b: Block, ranges: nat)
    requires FootprintOk(b, ranges)
    ensures ShapeOk(b) && Distinct(b.ranges)
  {
  }

  lemma FetchedNow(mem: Memory, num: nat, thumb: bool, at: Localisation, virt: nat, log: seq<Local>)
    requires Ranged(at) && virt % 2 == 0 && (thumb || virt % 4 == 0)
    ensures FetchOk(Fetch(mem, num, thumb, at, virt), num, thumb, mem, log)
  {
    WordAligned(virt, at);
    hide Ranged, Logged, FetchWidth;
    assert Holds(mem, at(virt), Bytes(mem, at(virt), FetchWidth(num, thumb, virt)));
  }

  // Local addresses agree with virtual ones in their low bits.
  lemma WordAligned(virt: nat, at: Localisation)
    requires Ranged(at)
    ensures at(virt) != 0 ==> at(virt) % 4 == virt % 4
  {
    var a := at(virt);
    if a != 0 {
      assert a % 512 == virt % 512;
      hide Ranged;
      LowBitsOfRange(a);
      LowBitsOfRange(virt);
    }
  }

  // The upper half of a fetched pair is as good as a fetch of its own.
  lemma UpperHalfFetched(f: Fetched, at: Localisation, mem: Memory, log: seq<Local>)
    requires Ranged(at) && FetchOk(f, 0, true, mem, log) && f.addr == at(f.virt) && f.virt % 4 == 0
    ensures FetchOk(Fetched(f.virt + 2, at(f.virt + 2), f.word[2..]), 0, true, mem, log)
  {
    NextHalfword(f.virt, at);
    UpperHalf(f.virt);
    PairFetched(f, mem, log);
    hide Ranged, FetchOk, Holds, Logged;
    if f.addr != 0 {
      UpperHalf(f.addr);
      UpperHalfHolds(f, mem, log);
    }
    HalfFetched(f.virt + 2, at(f.virt + 2), f.word[2..], mem, log);
  }

  lemma PairFetched(f: Fetched, mem: Memory, log: seq<Local>)
    requires FetchOk(f, 0, true, mem, log) && f.virt % 4 == 0
    ensures |f.word| == 4 && (f.addr != 0 ==> f.addr % 4 == 0 && (Holds(mem, f.addr, f.word) || Logged(log, f.addr)))
  {
    hide Holds, Logged;
  }

  lemma HalfFetched(virt: nat, addr: Local, w: Word, mem: Memory, log: seq<Local>)
    requires virt % 4 == 2 && virt % 2 == 0 && |w| == 2
    requires addr != 0 ==> addr % 4 == 2 && (Holds(mem, addr, w) || Logged(log, addr))
    ensures FetchOk(Fetched(virt, addr, w), 0, true, mem, log)
  {
    hide Holds, Logged;
  }

  lemma UpperHalf(a: nat)
    requires a % 4 == 0
    ensures (a + 2) % 4 == 2 && (a + 2) % 2 == 0
  {
    Bits.Quotient(a + 2, 4, a / 4, 2);
    EvenByWord(a + 2);
  }

  lemma UpperHalfHolds(f: Fetched, mem: Memory, log: seq<Local>)
    requires |f.word| == 4 && f.addr % 4 == 0 && (Holds(mem, f.addr, f.word) || Logged(log, f.addr))
    ensures Holds(mem, f.addr + 2, f.word[2..]) || Logged(log, f.addr + 2)
  {
    WordInGranule(f.addr, 4, 2);
    hide GranuleOf, RangeOf;
    if Holds(mem, f.addr, f.word) {
      forall i | 0 <= i < 2 ensures Read(mem, f.addr + 2 + i) == f.word[2..][i] {
        assert Read(mem, f.addr + (2 + i)) == f.word[2 + i];
      }
    } else {
      var j :| 0 <= j < |log| && GranuleOf(log[j]) == GranuleOf(f.addr);
      assert GranuleOf(log[j]) == GranuleOf(f.addr + 2);
    }
  }

  lemma NextHalfword(virt: nat, at: Localisation)
    requires Ranged(at) && virt % 4 == 0
    ensures at(virt + 2) == if at(virt) == 0 then 0 else at(virt) + 2
  {
    var u, v := at(virt), at(virt + 2);
    SameRangeUpper(virt);
    assert RangeOf(u) == RangeOf(v);
    NonzeroRange(virt, at);
    NonzeroRange(virt + 2, at);
    assert u != 0 ==> u % 512 == virt % 512 && v % 512 == (virt + 2) % 512;
    hide Ranged;
    FromRange(u);
    FromRange(v);
  }

  lemma SameRangeUpper(virt: nat)
    requires virt % 4 == 0
    ensures RangeOf(virt + 2) == RangeOf(virt) && (virt + 2) % 512 == virt % 512 + 2
  {
    var q := virt / 4;
    LowBitsOfRange(virt);
    assert virt % 512 <= 508;
    Bits.Quotient(virt + 2, 512, virt / 512, virt % 512 + 2);
  }

  lemma NonzeroRange(virt: nat, at: Localisation)
    requires Ranged(at)
    ensures at(virt) != 0 <==> RangeOf(at(virt)) > 0
  {
    assert at(virt) != 0 ==> RegionOf(at(virt)) > 0;
  }

  lemma RemovedKeepsTrace(blocks: Blocks, keyMap: KeyMap, blocks': Blocks, keyMap': KeyMap, pool': Pool, id: BlockId,
                          log: seq<Local>, key: Key)
    requires OnlyRemoved(blocks, keyMap, blocks', keyMap', id) && Owned(blocks', keyMap', pool')
    requires NoneTouched(blocks, keyMap, log) && key !in keyMap
    ensures NoneTouched(blocks', keyMap', log) && key !in keyMap'
  {
    forall j | 0 <= j < |log| ensures NoLiveDepends(blocks', keyMap', log[j]) {
      assert NoLiveDepends(blocks, keyMap, log[j]);
    }
    assert key in keyMap' ==> Live(blocks', keyMap', keyMap'[key]);
  }
}
