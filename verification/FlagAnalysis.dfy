/**
  Flag elimination (src/ARMJIT.cpp, FloodFillSetFlags and its calls in CompileBlock).

  The block compiler emits the computation of a condition flag only where SetFlags
  asks for it. SetFlags is filled by backward flood fills, one for each place at which
  flags are observed. This module proves that the fills together compute classical
  live-out information, and that a block restricted to SetFlags behaves like the full
  block wherever flags can be seen.
*/
module FlagAnalysis {

  // A set of flags: N, Z, C and V are bits 3, 2, 1 and 0.
  type Flags = bv4

  const ALL_FLAGS: Flags := 0xF

  /**
    The part of a traced instruction that the flag pass looks at. The two nibbles of the
    source's WriteFlags byte are kept apart: `definite` (low nibble) are the flags the
    instruction always sets, `maybe` (high nibble) those it sets only in some executions.
    `mayLeave` is an ARM9 memory access or any store; `secondaryRead` is an instruction that
    is interpreted, or a conditional branch that the trace follows.
  */
  datatype FetchedInstr = FetchedInstr(
    definite: Flags, maybe: Flags, readFlags: Flags, mayLeave: bool, secondaryRead: bool, setFlags: Flags)
  {
    function Writes(): Flags { definite | maybe }

    // The flags that can be seen when this instruction starts.
    function Uses(): Flags {
      (if mayLeave then 0xF else 0) | (if secondaryRead then 0xF else readFlags)
    }
  }

  // Flags that some instruction of s[lo..hi] certainly overwrites.
  function DefiniteBetween(s: seq<FetchedInstr>, lo: nat, hi: nat): (f: Flags)
    requires lo <= hi <= |s|
    decreases hi - lo
  {
    if lo == hi then 0 else s[lo].definite | DefiniteBetween(s, lo + 1, hi)
  }

  // The part of `flags` that s[lo..hi] leaves for an instruction above it to supply.
  function Unsupplied(s: seq<FetchedInstr>, flags: Flags, lo: nat, hi: nat): Flags
    requires lo <= hi <= |s|
  {
    flags & !DefiniteBetween(s, lo, hi)
  }

  // What one flood fill of `flags` starting at `start` adds to instruction j.
  function Reached(s: seq<FetchedInstr>, start: int, flags: Flags, j: nat): Flags
    requires j < |s| && start < |s|
  {
    if start < j then 0 else s[j].Writes() & Unsupplied(s, flags, j + 1, start + 1)
  }

  ghost predicate SameButSetFlags(s: seq<FetchedInstr>, t: seq<FetchedInstr>) {
    |s| == |t| && forall j | 0 <= j < |s| :: t[j] == s[j].(setFlags := t[j].setFlags)
  }

  lemma {:induction false} SameDefinite(s: seq<FetchedInstr>, t: seq<FetchedInstr>, lo: nat, hi: nat)
    requires SameButSetFlags(s, t) && lo <= hi <= |s|
    ensures DefiniteBetween(s, lo, hi) == DefiniteBetween(t, lo, hi)
    decreases hi - lo
  {
    if lo < hi {
      SameDefinite(s, t, lo + 1, hi);
    }
  }

  // Instruction j after that fill.
  function Filled(s: seq<FetchedInstr>, start: int, flags: Flags, j: nat): FetchedInstr
    requires j < |s| && start < |s|
  {
    s[j].(setFlags := s[j].setFlags | Reached(s, start, flags, j))
  }

  method FloodFillSetFlags(instrs: array<FetchedInstr>, start: int, flags: Flags)
    requires -1 <= start < instrs.Length
    modifies instrs
    ensures forall j | 0 <= j < instrs.Length :: instrs[j] == Filled(old(instrs[..]), start, flags, j)
  {
    ghost var was := instrs[..];
    var left := flags;
    var j := start;
    NothingReachedAfter(was, start, flags);
    while j >= 0
      invariant -1 <= j <= start
      invariant left == Unsupplied(was, flags, j + 1, start + 1)
      invariant forall k | 0 <= k <= j :: instrs[k] == was[k]
      invariant forall k | j < k < instrs.Length :: instrs[k] == Filled(was, start, flags, k)
    {
      var instr, rest, done := FillInstr(instrs[j], left);
      FillOne(was, j, start, flags);
      instrs[j] := instr;
      left := rest;
      j := j - 1;
      if done {
        NothingReachedBefore(was, j, start, flags);
        return;
      }
    }
  }

  // One iteration: mark what the instruction supplies, and what is then still wanted.
  method FillInstr(instr: FetchedInstr, flags: Flags) returns (filled: FetchedInstr, rest: Flags, done: bool)
    ensures filled == instr.(setFlags := instr.setFlags | (instr.Writes() & flags))
    ensures rest == flags & !instr.definite
    ensures done ==> rest == 0
  {
    filled, rest, done := instr, flags, false;
    var matched := instr.definite & flags;
    var matchedMaybe := instr.maybe & flags;
    if matchedMaybe != 0 {
      filled := filled.(setFlags := filled.setFlags | matchedMaybe);
    }
    if matched != 0 {
      filled := filled.(setFlags := filled.setFlags | matched);
      rest := rest & !matched;
      done := rest == 0;
    }
  }

  lemma FillOne(s: seq<FetchedInstr>, j: nat, start: int, flags: Flags)
    requires j <= start < |s|
    ensures Unsupplied(s, flags, j, start + 1) == Unsupplied(s, flags, j + 1, start + 1) & !s[j].definite
    ensures Filled(s, start, flags, j)
      == s[j].(setFlags := s[j].setFlags | (s[j].Writes() & Unsupplied(s, flags, j + 1, start + 1)))
  {
  }

  lemma NothingReachedAfter(s: seq<FetchedInstr>, start: int, flags: Flags)
    requires start < |s|
    ensures forall k | 0 <= k && start < k < |s| :: s[k] == Filled(s, start, flags, k)
  {
  }

  // Once nothing is left of `flags` at j, nothing is left further up either.
  lemma NothingReachedBefore(s: seq<FetchedInstr>, j: int, start: int, flags: Flags)
    requires -1 <= j <= start < |s|
    requires Unsupplied(s, flags, j + 1, start + 1) == 0
    ensures forall k | 0 <= k <= j :: s[k] == Filled(s, start, flags, k)
  {
    forall k | 0 <= k <= j ensures s[k] == Filled(s, start, flags, k) {
      KilledBefore(s, k + 1, j + 1, start + 1, flags);
    }
  }

  lemma {:induction false} KilledBefore(s: seq<FetchedInstr>, lo: nat, mid: nat, hi: nat, flags: Flags)
    requires lo <= mid <= hi <= |s|
    requires flags & !DefiniteBetween(s, mid, hi) == 0
    ensures flags & !DefiniteBetween(s, lo, hi) == 0
    decreases mid - lo
  {
    if lo < mid {
      KilledBefore(s, lo + 1, mid, hi, flags);
    }
  }

  // -------- classical liveness --------

  // Flags live on entry to instruction k of a block, with every flag live at the exit.
  function LiveIn(s: seq<FetchedInstr>, k: nat): Flags
    requires k <= |s|
    decreases |s| - k
  {
    if k == |s| then ALL_FLAGS
    else s[k].Uses() | (LiveIn(s, k + 1) & !s[k].definite)
  }

  function LiveOut(s: seq<FetchedInstr>, k: nat): Flags
    requires k < |s|
  {
    LiveIn(s, k + 1)
  }

  // Flags live on entry to k on account of the uses in s[k..i] alone.
  function UsedFrom(s: seq<FetchedInstr>, k: nat, i: nat): Flags
    requires k <= i <= |s|
    decreases i - k
  {
    if k == i then 0 else s[k].Uses() | (UsedFrom(s, k + 1, i) & !s[k].definite)
  }

  lemma {:induction false} UsedFromSnoc(s: seq<FetchedInstr>, k: nat, i: nat)
    requires k <= i < |s|
    ensures UsedFrom(s, k, i + 1) == UsedFrom(s, k, i) | (s[i].Uses() & !DefiniteBetween(s, k, i))
    decreases i - k
  {
    if k < i {
      UsedFromSnoc(s, k + 1, i);
    } else {
      assert UsedFrom(s, k + 1, i + 1) == 0;
    }
  }

  lemma {:induction false} LiveInSplits(s: seq<FetchedInstr>, k: nat)
    requires k <= |s|
    ensures LiveIn(s, k) == UsedFrom(s, k, |s|) | (ALL_FLAGS & !DefiniteBetween(s, k, |s|))
    decreases |s| - k
  {
    if k < |s| {
      LiveInSplits(s, k + 1);
    }
  }

  // The array once instructions up to i have been traced.
  ghost predicate SetFrom(was: seq<FetchedInstr>, now: seq<FetchedInstr>, i: nat) {
    i <= |was| == |now| &&
    forall j | 0 <= j < |was| :: now[j] == was[j].(setFlags := SoFar(was, j, i))
  }

  function SoFar(s: seq<FetchedInstr>, j: nat, i: nat): Flags
    requires j < |s| && i <= |s|
  {
    if j < i then s[j].Writes() & UsedFrom(s, j + 1, i) else 0
  }

  // Folding the uses of instruction i into every earlier SetFlags moves SetFrom on by one.
  lemma FillFolds(was: seq<FetchedInstr>, mid: seq<FetchedInstr>, now: seq<FetchedInstr>, i: nat, uses: Flags)
    requires SetFrom(was, mid, i) && i < |was| && uses == was[i].Uses()
    requires |now| == |mid| && forall j | 0 <= j < |mid| :: now[j] == Filled(mid, i - 1, uses, j)
    ensures SetFrom(was, now, i + 1)
  {
    forall j | 0 <= j < |was| ensures now[j] == was[j].(setFlags := SoFar(was, j, i + 1)) {
      if j < i {
        UsedFromSnoc(was, j + 1, i);
        SameDefinite(was, mid, j + 1, i);
      }
    }
  }

  // Two fills from the same place add up.
  lemma FillTwice(s: seq<FetchedInstr>, t: seq<FetchedInstr>, start: int, a: Flags, b: Flags)
    requires |s| == |t| && start < |s| && forall j | 0 <= j < |s| :: t[j] == Filled(s, start, a, j)
    ensures forall j | 0 <= j < |s| :: Filled(t, start, b, j) == Filled(s, start, a | b, j)
  {
    forall j | 0 <= j < |s| ensures Filled(t, start, b, j) == Filled(s, start, a | b, j) {
      if j <= start {
        SameDefinite(s, t, j + 1, start + 1);
      }
    }
  }

  lemma FillNothing(s: seq<FetchedInstr>, start: int)
    requires start < |s|
    ensures forall j | 0 <= j < |s| :: Filled(s, start, 0, j) == s[j]
  {
  }

  // The flood fills the tracing loop performs once instruction i has been decoded.
  method ObserveFlags(instrs: array<FetchedInstr>, i: nat, ghost was: seq<FetchedInstr>)
    requires i < instrs.Length && SetFrom(was, instrs[..], i)
    modifies instrs
    ensures SetFrom(was, instrs[..], i + 1)
  {
    ghost var start := instrs[..];
    FillNothing(start, i - 1);
    var instr := instrs[i];
    if instr.mayLeave {
      FloodFillSetFlags(instrs, i - 1, 0xF);
    }
    ghost var mid := instrs[..];
    ghost var first: Flags := if instr.mayLeave then 0xF else 0;
    var second := if !instr.secondaryRead then instr.readFlags else 0xF;
    FillTwice(start, mid, i - 1, first, second);
    FillNothing(mid, i - 1);
    if instr.readFlags != 0 || instr.secondaryRead {
      FloodFillSetFlags(instrs, i - 1, second);
    }
    assert forall j | 0 <= j < |start| :: instrs[..][j] == Filled(mid, i - 1, second, j);
    FillFolds(was, start, instrs[..], i, first | second);
  }

  /**
    The flag side of one compilation: each instruction's observations are propagated as soon
    as it is traced, and the exit of the block observes every flag.
  */
  method AnalyseFlags(instrs: array<FetchedInstr>)
    requires forall j | 0 <= j < instrs.Length :: instrs[j].setFlags == 0
    modifies instrs
    ensures forall j | 0 <= j < instrs.Length ::
      instrs[j] == old(instrs[j]).(setFlags := old(instrs[j]).Writes() & LiveOut(old(instrs[..]), j))
  {
    ghost var was := instrs[..];
    var i := 0;
    while i < instrs.Length
      invariant 0 <= i <= instrs.Length
      invariant SetFrom(was, instrs[..], i)
    {
      ObserveFlags(instrs, i, was);
      i := i + 1;
    }
    ExitFillCompletes(was, instrs[..]);
    FloodFillSetFlags(instrs, i - 1, 0xF);
  }

  lemma ExitFillCompletes(was: seq<FetchedInstr>, now: seq<FetchedInstr>)
    requires SetFrom(was, now, |was|)
    ensures forall j | 0 <= j < |was| ::
      Filled(now, |was| - 1, 0xF, j) == was[j].(setFlags := was[j].Writes() & LiveOut(was, j))
  {
    forall j | 0 <= j < |was|
      ensures Filled(now, |was| - 1, 0xF, j) == was[j].(setFlags := was[j].Writes() & LiveOut(was, j))
    {
      LiveInSplits(was, j + 1);
      SameDefinite(was, now, j + 1, |was|);
    }
  }

  // -------- meaning --------

  /**
    What an instruction does when it starts in state `s` with flags `f`: the rest of the
    machine afterwards, the flag values it produces, and which flags it produces.
  */
  datatype Effect<S> = Effect(state: S, values: Flags, written: Flags)

  type Meaning<!S> = (nat, S, Flags) -> Effect<S>

  predicate SameOn(f: Flags, g: Flags, mask: Flags) {
    f & mask == g & mask
  }

  predicate Within(a: Flags, b: Flags) {
    a & !b == 0
  }

  // The masks decoded for the block describe the meaning `m` of its instructions.
  ghost predicate Describes<S(!new)>(instrs: seq<FetchedInstr>, m: Meaning<S>) {
    && (forall k: nat, s: S, f: Flags, g: Flags ::
          k < |instrs| && SameOn(f, g, instrs[k].Uses()) ==> m(k, s, f) == m(k, s, g))
    && (forall k: nat, s: S, f: Flags :: k < |instrs| ==>
          && Within(m(k, s, f).written, instrs[k].Writes())
          && Within(instrs[k].definite, m(k, s, f).written))
  }

  function Update(f: Flags, e: Flags, mask: Flags): Flags {
    (f & !mask) | (e & mask)
  }

  // Instruction k with every produced flag written back.
  ghost function FullStep<S>(m: Meaning<S>, k: nat, s: S, f: Flags): (S, Flags) {
    var e := m(k, s, f);
    (e.state, Update(f, e.values, e.written))
  }

  // The same with only the flags of its SetFlags written back.
  ghost function ReducedStep<S>(instr: FetchedInstr, m: Meaning<S>, k: nat, s: S, f: Flags): (S, Flags) {
    var e := m(k, s, f);
    (e.state, Update(f, e.values, e.written & instr.setFlags))
  }

  // State and flags before instruction k of the full and of the reduced block.
  ghost function FullRun<S>(m: Meaning<S>, s: S, f: Flags, k: nat): (S, Flags) {
    if k == 0 then (s, f)
    else
      var (s', f') := FullRun(m, s, f, k - 1);
      FullStep(m, k - 1, s', f')
  }

  ghost function ReducedRun<S>(instrs: seq<FetchedInstr>, m: Meaning<S>, s: S, f: Flags, k: nat): (S, Flags)
    requires k <= |instrs|
  {
    if k == 0 then (s, f)
    else
      var (s', f') := ReducedRun(instrs, m, s, f, k - 1);
      ReducedStep(instrs[k - 1], m, k - 1, s', f')
  }

  ghost predicate Analysed(instrs: seq<FetchedInstr>) {
    forall j | 0 <= j < |instrs| :: instrs[j].setFlags == instrs[j].Writes() & LiveOut(instrs, j)
  }

  /**
    Before every instruction both runs are in the same machine state and agree on all flags
    that are live there.
  */
  lemma {:induction false} ReducedAgreesOnLive<S(!new)>(
      instrs: seq<FetchedInstr>, m: Meaning<S>, s: S, f: Flags, k: nat)
    requires Analysed(instrs) && Describes(instrs, m) && k <= |instrs|
    ensures FullRun(m, s, f, k).0 == ReducedRun(instrs, m, s, f, k).0
    ensures SameOn(FullRun(m, s, f, k).1, ReducedRun(instrs, m, s, f, k).1, LiveIn(instrs, k))
  {
    if k > 0 {
      ReducedAgreesOnLive(instrs, m, s, f, k - 1);
      var (s', full) := FullRun(m, s, f, k - 1);
      StepKeepsLive(instrs, m, k - 1, s', full, ReducedRun(instrs, m, s, f, k - 1).1);
    }
  }

  lemma StepKeepsLive<S(!new)>(instrs: seq<FetchedInstr>, m: Meaning<S>, k: nat, s: S, full: Flags, reduced: Flags)
    requires Analysed(instrs) && Describes(instrs, m) && k < |instrs|
    requires SameOn(full, reduced, LiveIn(instrs, k))
    ensures FullStep(m, k, s, full).0 == ReducedStep(instrs[k], m, k, s, reduced).0
    ensures SameOn(FullStep(m, k, s, full).1, ReducedStep(instrs[k], m, k, s, reduced).1, LiveIn(instrs, k + 1))
  {
    var instr := instrs[k];
    Narrow(full, reduced, LiveIn(instrs, k), instr.Uses());
    var e := m(k, s, full);
    assert e == m(k, s, reduced);
    UpdateKeepsLive(full, reduced, e.values, e.written, instr, LiveOut(instrs, k), LiveIn(instrs, k));
  }

  lemma UpdateKeepsLive(full: Flags, reduced: Flags, values: Flags, written: Flags, instr: FetchedInstr,
                        live: Flags, before: Flags)
    requires before == instr.Uses() | (live & !instr.definite)
    requires SameOn(full, reduced, before)
    requires Within(written, instr.Writes()) && Within(instr.definite, written)
    requires instr.setFlags == instr.Writes() & live
    ensures SameOn(Update(full, values, written), Update(reduced, values, written & instr.setFlags), live)
  {
  }

  lemma Narrow(a: Flags, b: Flags, live: Flags, visible: Flags)
    requires SameOn(a, b, live) && Within(visible, live)
    ensures SameOn(a, b, visible)
  {
  }

  // The flags that can be seen before instruction k; all of them at the exit.
  function Visible(instrs: seq<FetchedInstr>, k: nat): Flags
    requires k <= |instrs|
  {
    if k == |instrs| then ALL_FLAGS else instrs[k].Uses()
  }

  ghost predicate AgreeAt<S>(instrs: seq<FetchedInstr>, m: Meaning<S>, s: S, f: Flags, k: nat)
    requires k <= |instrs|
  {
    var (fullState, full) := FullRun(m, s, f, k);
    var (reducedState, reduced) := ReducedRun(instrs, m, s, f, k);
    fullState == reducedState && SameOn(full, reduced, Visible(instrs, k))
  }

  /**
    Meaning preservation: after the analysis, the reduced block gives every instruction the
    same machine state and the same visible flags as the full block, and all flags are equal
    at the exit.
  */
  lemma FlagEliminationPreservesMeaning<S(!new)>(
      instrs: seq<FetchedInstr>, m: Meaning<S>, s: S, f: Flags)
    requires Analysed(instrs) && Describes(instrs, m)
    ensures forall k: nat | k <= |instrs| :: AgreeAt(instrs, m, s, f, k)
    ensures FullRun(m, s, f, |instrs|) == ReducedRun(instrs, m, s, f, |instrs|)
  {
    forall k: nat | k <= |instrs| ensures AgreeAt(instrs, m, s, f, k) {
      ReducedAgreesOnLive(instrs, m, s, f, k);
      Narrow(FullRun(m, s, f, k).1, ReducedRun(instrs, m, s, f, k).1, LiveIn(instrs, k), Visible(instrs, k));
    }
    assert AgreeAt(instrs, m, s, f, |instrs|);
  }

  /** The analysis method establishes what the preservation theorem asks for. */
  lemma AnalysisIsAnalysed(was: seq<FetchedInstr>, now: seq<FetchedInstr>)
    requires |was| == |now|
    requires forall j | 0 <= j < |was| :: now[j] == was[j].(setFlags := was[j].Writes() & LiveOut(was, j))
    ensures Analysed(now)
  {
    forall k: nat | k <= |was| ensures LiveIn(was, k) == LiveIn(now, k) {
      SameLiveIn(was, now, k);
    }
  }

  lemma {:induction false} SameLiveIn(s: seq<FetchedInstr>, t: seq<FetchedInstr>, k: nat)
    requires SameButSetFlags(s, t) && k <= |s|
    ensures LiveIn(s, k) == LiveIn(t, k)
    decreases |s| - k
  {
    if k < |s| {
      SameLiveIn(s, t, k + 1);
    }
  }

  /**
    SetFlags as reachability: flag b is computed by instruction j exactly when j can write it
    and some later use of it, or the exit, is reached without passing a definite write of b.
  */
  lemma {:induction false} SetFlagsIsMinimal(instrs: seq<FetchedInstr>, j: nat, b: Flags)
    requires Analysed(instrs) && j < |instrs| && b in {1, 2, 4, 8}
    ensures instrs[j].setFlags & b != 0 <==>
      instrs[j].Writes() & b != 0 &&
      exists k: nat :: j < k <= |instrs| && DefiniteBetween(instrs, j + 1, k) & b == 0 &&
                       (k < |instrs| ==> instrs[k].Uses() & b != 0)
  {
    LiveMeansReachableUse(instrs, j + 1, b);
  }

  lemma {:induction false} LiveMeansReachableUse(s: seq<FetchedInstr>, lo: nat, b: Flags)
    requires lo <= |s| && b in {1, 2, 4, 8}
    ensures LiveIn(s, lo) & b != 0 <==>
      exists k: nat :: lo <= k <= |s| && DefiniteBetween(s, lo, k) & b == 0 &&
                       (k < |s| ==> s[k].Uses() & b != 0)
    decreases |s| - lo
  {
    if lo == |s| {
      assert DefiniteBetween(s, lo, lo) & b == 0;
    } else {
      LiveMeansReachableUse(s, lo + 1, b);
      assert DefiniteBetween(s, lo, lo) & b == 0;
      if LiveIn(s, lo) & b != 0 && s[lo].Uses() & b == 0 {
        var k: nat :| lo + 1 <= k <= |s| && DefiniteBetween(s, lo + 1, k) & b == 0 &&
                      (k < |s| ==> s[k].Uses() & b != 0);
        assert DefiniteBetween(s, lo, k) & b == 0;
      }
      forall k: nat | lo < k <= |s| && DefiniteBetween(s, lo, k) & b == 0 && (k < |s| ==> s[k].Uses() & b != 0)
        ensures LiveIn(s, lo) & b != 0
      {
        assert DefiniteBetween(s, lo + 1, k) & b == 0;
      }
    }
  }
}
