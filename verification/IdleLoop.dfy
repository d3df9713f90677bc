/**
  Idle-loop detection (src/ARMJIT.cpp, IsIdleLoop).

  A polling loop may give up the rest of its time slice when one iteration cannot influence
  the next. The source decides this from the decoded register masks alone. This module gives
  the check a specification, states what "the next iteration is the same" means, and proves
  exactly which bodies have that property.
*/
module IdleLoop {

  // Registers R0-R15 are locations 0-15, the flags V, C, Z and N are locations 16-19.
  const LOCATIONS := 20

  type Loc = l: nat | l < LOCATIONS

  const PC: Loc := 15

  /**
    The decoded masks of one instruction. `conditional` is an ARM condition below 0xE: the
    instruction may have no effect at all. `systemAccess` covers the kinds from MSR to MRC.
  */
  datatype Instr = Instr(
    srcRegs: set<Loc>, dstRegs: set<Loc>, readFlags: set<Loc>, setFlags: set<Loc>, maybeFlags: set<Loc>,
    conditional: bool, writesMemory: bool, systemAccess: bool)
  {
    predicate Branches() { PC in dstRegs }

    function Reads(): set<Loc> { srcRegs - {PC} + readFlags }

    function Writes(): set<Loc> { dstRegs - {PC} + setFlags + maybeFlags }

    function Definite(): set<Loc> { if conditional then {} else dstRegs - {PC} + setFlags }

    ghost predicate Valid() {
      && (forall l | l in srcRegs :: l <= PC) && (forall l | l in dstRegs :: l <= PC)
      && (forall l | l in readFlags :: PC < l) && (forall l | l in setFlags :: PC < l)
      && (forall l | l in maybeFlags :: PC < l)
    }
  }

  // -------- the check --------

  // Some instruction from i on writes a register that instruction i reads and none before i writes.
  ghost predicate RegisterConflict(instrs: seq<Instr>, i: nat, j: nat, r: Loc) {
    && i <= j < |instrs| && r != PC
    && r in instrs[i].srcRegs && r in instrs[j].dstRegs
    && forall k | 0 <= k < i :: r !in instrs[k].dstRegs
  }

  ghost predicate Accepted(thumb: bool, instrs: seq<Instr>) {
    && (forall i | 0 <= i < |instrs| :: !instrs[i].writesMemory && (thumb || !instrs[i].systemAccess))
    && (forall i | 0 <= i < |instrs| - 1 :: !instrs[i].Branches())
    && forall i: nat, j: nat, r: Loc :: !RegisterConflict(instrs, i, j, r)
  }

  method IsIdleLoop(thumb: bool, instrs: seq<Instr>) returns (idle: bool)
    ensures idle <==> Accepted(thumb, instrs)
  {
    var regsWrittenTo: set<Loc> := {};
    var regsDisallowedToWrite: set<Loc> := {};
    for i := 0 to |instrs|
      invariant forall r: Loc :: r in regsWrittenTo <==> r != PC && exists k | 0 <= k < i :: r in instrs[k].dstRegs
      invariant forall r: Loc :: r in regsDisallowedToWrite <==>
        r != PC && exists k | 0 <= k < i :: r in instrs[k].srcRegs && forall h | 0 <= h < k :: r !in instrs[h].dstRegs
      invariant forall k | 0 <= k < i :: !instrs[k].writesMemory && (thumb || !instrs[k].systemAccess)
      invariant forall k | 0 <= k < i && k < |instrs| - 1 :: !instrs[k].Branches()
      invariant forall k: nat, j: nat, r: Loc | j < i :: !RegisterConflict(instrs, k, j, r)
    {
      if instrs[i].writesMemory {
        return false;
      }
      if !thumb && instrs[i].systemAccess {
        return false;
      }
      if i < |instrs| - 1 && instrs[i].Branches() {
        return false;
      }
      var srcRegs := instrs[i].srcRegs - {PC};
      var dstRegs := instrs[i].dstRegs - {PC};
      regsDisallowedToWrite := regsDisallowedToWrite + (srcRegs - regsWrittenTo);
      if dstRegs * regsDisallowedToWrite != {} {
        ghost var r: Loc :| r in dstRegs * regsDisallowedToWrite;
        ghost var k: nat :| 0 <= k <= i && r in instrs[k].srcRegs && forall h | 0 <= h < k :: r !in instrs[h].dstRegs;
        assert RegisterConflict(instrs, k, i, r);
        return false;
      }
      forall k: nat, r: Loc | k <= i && r != PC && r in instrs[k].srcRegs && forall h | 0 <= h < k :: r !in instrs[h].dstRegs
        ensures r !in instrs[i].dstRegs
      {
        assert r in regsDisallowedToWrite;
        assert r !in dstRegs * regsDisallowedToWrite;
      }
      regsWrittenTo := regsWrittenTo + dstRegs;
    }
    return true;
  }

  // -------- iterations --------

  type State = s: seq<int> | |s| == LOCATIONS witness seq(LOCATIONS, _ => 0)

  // The locations an instruction updates, with their new values; memory is fixed and left implicit.
  type Meaning = (nat, State) -> map<Loc, int>

  function Update(s: State, u: map<Loc, int>): State {
    seq(LOCATIONS, l requires 0 <= l < LOCATIONS => if l in u then u[l] else s[l])
  }

  ghost predicate Agree(s: State, t: State, locs: set<Loc>) {
    forall l | l in locs :: s[l] == t[l]
  }

  // The masks describe what `m` reads, what it may update and what it always updates.
  ghost predicate Describes(instrs: seq<Instr>, m: Meaning) {
    && (forall k: nat, s: State, t: State ::
          k < |instrs| && Agree(s, t, instrs[k].Reads()) ==> m(k, s) == m(k, t))
    && (forall k: nat, s: State :: k < |instrs| ==>
          instrs[k].Definite() <= m(k, s).Keys <= instrs[k].Writes())
  }

  // The state before instruction k of one iteration from s.
  ghost function Run(m: Meaning, s: State, k: nat): State {
    if k == 0 then s
    else
      var t := Run(m, s, k - 1);
      Update(t, m(k - 1, t))
  }

  // The locations actually updated before instruction k.
  ghost function Updated(m: Meaning, s: State, k: nat): set<Loc> {
    if k == 0 then {} else Updated(m, s, k - 1) + m(k - 1, Run(m, s, k - 1)).Keys
  }

  ghost function Iterate(instrs: seq<Instr>, m: Meaning, s: State, n: nat): State {
    if n == 0 then s else Run(m, Iterate(instrs, m, s, n - 1), |instrs|)
  }

  // The second iteration from s finds the same inputs at instruction k as the first.
  ghost predicate SameInputs(instrs: seq<Instr>, m: Meaning, s: State, k: nat) {
    k < |instrs| ==> Agree(Run(m, s, k), Run(m, Run(m, s, |instrs|), k), instrs[k].Reads())
  }

  /** Whatever the instructions do within their masks, a second iteration repeats the first. */
  ghost predicate Repeats(instrs: seq<Instr>) {
    forall m: Meaning, s: State, k: nat :: Describes(instrs, m) ==> SameInputs(instrs, m, s, k)
  }

  // A location read at i and written at or after i, without a certain write before i.
  ghost predicate Carried(instrs: seq<Instr>, i: nat, j: nat, l: Loc) {
    && i <= j < |instrs|
    && l in instrs[i].Reads() && l in instrs[j].Writes()
    && forall k | 0 <= k < i :: l !in instrs[k].Definite()
  }

  ghost predicate NothingCarried(instrs: seq<Instr>) {
    forall i: nat, j: nat, l: Loc :: !Carried(instrs, i, j, l)
  }

  ghost predicate ValidBody(instrs: seq<Instr>) {
    forall k | 0 <= k < |instrs| :: instrs[k].Valid()
  }

  lemma {:induction false} DefiniteIsUpdated(instrs: seq<Instr>, m: Meaning, s: State, i: nat, k: nat)
    requires Describes(instrs, m) && i < k <= |instrs|
    ensures instrs[i].Definite() <= Updated(m, s, k)
  {
    if i < k - 1 {
      DefiniteIsUpdated(instrs, m, s, i, k - 1);
    }
  }

  // A location that nothing from k on writes keeps the value it has there.
  lemma {:induction false} KeptFrom(instrs: seq<Instr>, m: Meaning, s: State, k: nat, n: nat, l: Loc)
    requires Describes(instrs, m) && k <= n <= |instrs|
    requires forall j | k <= j < n :: l !in instrs[j].Writes()
    ensures Run(m, s, n)[l] == Run(m, s, k)[l]
    decreases n - k
  {
    if k < n {
      assert l !in instrs[k].Writes();
      assert Run(m, s, k + 1) == Update(Run(m, s, k), m(k, Run(m, s, k)));
      KeptFrom(instrs, m, s, k + 1, n, l);
    }
  }

  /**
    Before instruction k the second iteration has the first iteration's value at every
    location updated so far, and its own starting value elsewhere.
  */
  lemma {:induction false} SecondFollowsFirst(instrs: seq<Instr>, m: Meaning, s: State, k: nat)
    requires NothingCarried(instrs) && Describes(instrs, m) && k <= |instrs|
    ensures forall l: Loc ::
      Run(m, Run(m, s, |instrs|), k)[l] == (if l in Updated(m, s, k) then Run(m, s, k) else Run(m, s, |instrs|))[l]
    ensures SameInputs(instrs, m, s, k)
  {
    var s1 := Run(m, s, |instrs|);
    if k > 0 {
      SecondFollowsFirst(instrs, m, s, k - 1);
      assert m(k - 1, Run(m, s, k - 1)) == m(k - 1, Run(m, s1, k - 1));
    }
    if k < |instrs| {
      forall l: Loc | l in instrs[k].Reads() ensures Run(m, s, k)[l] == Run(m, s1, k)[l] {
        if l !in Updated(m, s, k) {
          ReadKeepsValue(instrs, m, s, k, l);
        }
      }
    }
  }

  // A location read at k before any update of it has its final value already.
  lemma ReadKeepsValue(instrs: seq<Instr>, m: Meaning, s: State, k: nat, l: Loc)
    requires NothingCarried(instrs) && Describes(instrs, m) && k < |instrs|
    requires l in instrs[k].Reads() && l !in Updated(m, s, k)
    ensures Run(m, s, k)[l] == Run(m, s, |instrs|)[l]
  {
    forall j | k <= j < |instrs| ensures l !in instrs[j].Writes() {
      forall i | 0 <= i < k ensures l !in instrs[i].Definite() {
        DefiniteIsUpdated(instrs, m, s, i, k);
      }
      assert !Carried(instrs, k, j, l);
    }
    KeptFrom(instrs, m, s, k, |instrs|, l);
  }

  // Every always-executed instruction and instruction j set their targets to 1; the rest do nothing.
  ghost function Ones(instrs: seq<Instr>, j: nat): Meaning {
    (k: nat, s: State) => map l | l in OnesTargets(instrs, j, k) :: 1
  }

  ghost function OnesTargets(instrs: seq<Instr>, j: nat, k: nat): set<Loc> {
    if k >= |instrs| then {} else if k == j then instrs[k].Writes() else instrs[k].Definite()
  }

  lemma {:induction false} OnesRun(instrs: seq<Instr>, j: nat, s: State, k: nat, l: Loc)
    ensures Run(Ones(instrs, j), s, k)[l]
      == if exists h | 0 <= h < k :: l in OnesTargets(instrs, j, h) then 1 else s[l]
  {
    if k > 0 {
      OnesRun(instrs, j, s, k - 1, l);
    }
  }

  /**
    The exact condition: the second iteration sees what the first saw, for every behaviour
    within the masks, if and only if no location is carried from one iteration to the next.
  */
  lemma RepeatsIffNothingCarried(instrs: seq<Instr>)
    ensures Repeats(instrs) <==> NothingCarried(instrs)
  {
    if NothingCarried(instrs) {
      forall m: Meaning, s: State, k: nat | Describes(instrs, m) ensures SameInputs(instrs, m, s, k) {
        if k < |instrs| {
          SecondFollowsFirst(instrs, m, s, k);
        }
      }
    } else {
      var i: nat, j: nat, l: Loc :| Carried(instrs, i, j, l);
      var m := Ones(instrs, j);
      var s: State := seq(LOCATIONS, _ => 0);
      var s1 := Run(m, s, |instrs|);
      OnesRun(instrs, j, s, i, l);
      OnesRun(instrs, j, s, |instrs|, l);
      OnesRun(instrs, j, s1, i, l);
      assert l in OnesTargets(instrs, j, j);
      assert !SameInputs(instrs, m, s, i);
    }
  }

  /** What the emulator relies on: any number of further iterations leaves the state alone. */
  lemma {:induction false} SkippingIterationsLosesNothing(instrs: seq<Instr>, m: Meaning, s: State, n: nat)
    requires NothingCarried(instrs) && Describes(instrs, m) && n > 0
    ensures Iterate(instrs, m, s, n) == Run(m, s, |instrs|)
  {
    assert Iterate(instrs, m, s, 0) == s;
    if n > 1 {
      SkippingIterationsLosesNothing(instrs, m, s, n - 1);
      OneMoreIteration(instrs, m, s);
    }
  }

  lemma OneMoreIteration(instrs: seq<Instr>, m: Meaning, s: State)
    requires NothingCarried(instrs) && Describes(instrs, m)
    ensures Run(m, Run(m, s, |instrs|), |instrs|) == Run(m, s, |instrs|)
  {
    SecondFollowsFirst(instrs, m, s, |instrs|);
  }

  // -------- what the check guarantees --------

  // Every flag an instruction reads has been set, without condition, earlier in the body.
  ghost predicate FlagsSetBeforeRead(instrs: seq<Instr>) {
    forall i, l: Loc | 0 <= i < |instrs| && l in instrs[i].readFlags ::
      exists k | 0 <= k < i :: l in instrs[k].setFlags && !instrs[k].conditional
  }

  // Every register that is read and written again has been written, without condition, before the read.
  ghost predicate RegistersWrittenBeforeRead(instrs: seq<Instr>) {
    forall i, j, r: Loc | 0 <= i <= j < |instrs| && r != PC && r in instrs[i].srcRegs && r in instrs[j].dstRegs ::
      exists k | 0 <= k < i :: r in instrs[k].dstRegs && !instrs[k].conditional
  }

  lemma CarriesNothingIff(instrs: seq<Instr>)
    requires ValidBody(instrs) && FlagsSetBeforeRead(instrs)
    ensures NothingCarried(instrs) <==> RegistersWrittenBeforeRead(instrs)
  {
    if RegistersWrittenBeforeRead(instrs) {
      forall i: nat, j: nat, l: Loc ensures !Carried(instrs, i, j, l) {
        if i <= j < |instrs| && l in instrs[i].Reads() && l in instrs[j].Writes() {
          assert instrs[i].Valid() && instrs[j].Valid();
          var k :| 0 <= k < i && !instrs[k].conditional && l in instrs[k].dstRegs + instrs[k].setFlags;
          assert l in instrs[k].Definite();
        }
      }
    }
    if NothingCarried(instrs) {
      forall i, j, r: Loc | 0 <= i <= j < |instrs| && r != PC && r in instrs[i].srcRegs && r in instrs[j].dstRegs
        ensures exists k | 0 <= k < i :: r in instrs[k].dstRegs && !instrs[k].conditional
      {
        assert !Carried(instrs, i, j, r);
        var k :| 0 <= k < i && r in instrs[k].Definite();
        assert instrs[k].Valid() && instrs[i].Valid();
      }
    }
  }

  /**
    An accepted body whose only conditional instructions are branches, and that sets every
    flag before it reads it, carries nothing: skipping its remaining iterations is sound.
  */
  lemma AcceptedCarriesNothing(thumb: bool, instrs: seq<Instr>)
    requires Accepted(thumb, instrs) && ValidBody(instrs)
    requires forall k | 0 <= k < |instrs| && instrs[k].conditional :: instrs[k].dstRegs <= {PC}
    requires FlagsSetBeforeRead(instrs)
    ensures NothingCarried(instrs)
  {
    forall i, j, r: Loc | 0 <= i <= j < |instrs| && r != PC && r in instrs[i].srcRegs && r in instrs[j].dstRegs
      ensures exists k | 0 <= k < i :: r in instrs[k].dstRegs && !instrs[k].conditional
    {
      assert !RegisterConflict(instrs, i, j, r);
    }
    CarriesNothingIff(instrs);
  }

  // CMP R1, #n ; MOVEQ R0, R1 ; MOV R2, R0 ; MOV R0, R3 ; BNE to the CMP
  const COMPARE := Instr({1}, {}, {}, {16, 17, 18, 19}, {}, false, false, false)
  const MOVE_IF := Instr({1}, {0}, {18}, {}, {}, true, false, false)
  const COPY := Instr({0}, {2}, {}, {}, {}, false, false, false)
  const RELOAD := Instr({3}, {0}, {}, {}, {}, false, false, false)

  const LOOP := Instr({}, {15}, {18}, {}, {}, true, false, false)

  function ConditionalBody(): seq<Instr> { [COMPARE, MOVE_IF, COPY, RELOAD, LOOP] }

  // What is checked: a body that a conditional branch back to its start ends.
  ghost predicate Loop(instrs: seq<Instr>) {
    && instrs != [] && instrs[|instrs| - 1].conditional && instrs[|instrs| - 1].Branches()
    && forall k | 0 <= k < |instrs| - 1 :: !instrs[k].Branches()
  }

  /**
    Conditional instructions are where the check is not enough: their targets count as
    written although they may not be. This loop of ARM instructions is accepted and sets its flags
    before it reads them, and yet its iterations differ.
  */
  lemma AcceptedConditionalBodyDiffers()
    ensures ValidBody(ConditionalBody()) && FlagsSetBeforeRead(ConditionalBody()) && Loop(ConditionalBody())
    ensures Accepted(false, ConditionalBody()) && !Repeats(ConditionalBody())
  {
    ConditionalBodyShape();
    ConditionalBodyConflicts();
    RepeatsIffNothingCarried(ConditionalBody());
    assert Carried(ConditionalBody(), 2, 3, 0);
  }

  lemma ConditionalBodyShape()
    ensures ValidBody(ConditionalBody()) && FlagsSetBeforeRead(ConditionalBody())
    ensures Loop(ConditionalBody())
    ensures forall i | 0 <= i < 5 :: !ConditionalBody()[i].writesMemory && !ConditionalBody()[i].systemAccess
    ensures Carried(ConditionalBody(), 2, 3, 0)
  {
    var body := ConditionalBody();
    assert 18 in body[0].setFlags;
    assert 0 in body[2].Reads() && 0 in body[3].Writes();
  }

  lemma ConditionalBodyConflicts()
    ensures forall i: nat, j: nat, r: Loc :: !RegisterConflict(ConditionalBody(), i, j, r)
  {
    var body := ConditionalBody();
    assert 0 in body[1].dstRegs;
    forall i: nat, j: nat, r: Loc ensures !RegisterConflict(body, i, j, r) {
    }
  }

  /**
    With the flag discipline, conditional instructions or not, the property holds exactly
    when every register that is read and written again later has an unconditional write
    before the read.
  */
  lemma RepeatsIffRegistersWrittenBeforeRead(instrs: seq<Instr>)
    requires ValidBody(instrs) && FlagsSetBeforeRead(instrs)
    ensures Repeats(instrs) <==> RegistersWrittenBeforeRead(instrs)
  {
    RepeatsIffNothingCarried(instrs);
    CarriesNothingIff(instrs);
  }
}
