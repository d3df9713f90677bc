/**
  The Action Replay interpreter (src/AREngine.cpp).

  A code is a list of two-word lines: an instruction and its operand, after which instruction E
  carries literal data padded to whole lines. There is one loop level, a stack of conditions, an
  offset and a data register. The bus is plain little-endian memory in which halfword and word
  accesses are aligned down; I/O registers and mirrors are not part of the model.
*/
module ActionReplay {
  import opened Bits

  type Memory = map<nat, Byte>

  // -------- the bus --------

  function Read8(mem: Memory, a: nat): Byte { if a in mem then mem[a] else 0 }

  function Read16(mem: Memory, a: U32): (v: U32)
    ensures v < 0x1_0000
  {
    var h := a / 2 * 2;
    Read8(mem, h) + Read8(mem, h + 1) * 0x100
  }

  function Read32(mem: Memory, a: U32): U32 {
    var w := a / 4 * 4;
    Read8(mem, w) + Read8(mem, w + 1) * 0x100 + Read8(mem, w + 2) * 0x1_0000 + Read8(mem, w + 3) * 0x100_0000
  }

  function Write8(mem: Memory, a: U32, v: nat): Memory { mem[a as nat := ByteOf(v, 0)] }

  function Write16(mem: Memory, a: U32, v: nat): Memory {
    var h := a / 2 * 2;
    mem[h := ByteOf(v, 0)][h + 1 := ByteOf(v, 1)]
  }

  function Write32(mem: Memory, a: U32, v: nat): Memory {
    var w := a / 4 * 4;
    mem[w := ByteOf(v, 0)][w + 1 := ByteOf(v, 1)][w + 2 := ByteOf(v, 2)][w + 3 := ByteOf(v, 3)]
  }

  // -------- instruction boundaries --------

  function Op(a: U32): nat { a / 0x100_0000 }

  predicate IsLiteral(a: U32) { Op(a) / 16 == 0xE }

  // Literal data of b bytes fills whole lines.
  function Lines(b: nat): nat { (b + 7) / 8 }

  // Where the line after the one at p begins.
  function After(code: seq<U32>, p: nat): (q: nat)
    requires p + 2 <= |code|
    ensures q >= p + 2
  {
    if IsLiteral(code[p]) then p + 2 + Lines(code[p + 1]) * 2 else p + 2
  }

  // From p on, whole lines with their literals fill the code.
  predicate Walks(code: seq<U32>, p: nat)
    requires p <= |code|
    decreases |code| - p
  {
    p == |code| || (p + 2 <= |code| && After(code, p) <= |code| && Walks(code, After(code, p)))
  }

  lemma WalksOn(code: seq<U32>, p: nat)
    requires p <= |code|
    ensures p < |code| && |code| - p >= 2 ==> Walks(code, p) == (After(code, p) <= |code| && Walks(code, After(code, p)))
    ensures p == |code| ==> Walks(code, p)
  {
  }

  predicate Validated(code: seq<U32>) { |code| % 2 == 0 && Walks(code, 0) }

  // p is reached from q by whole lines.
  ghost predicate BoundaryFrom(code: seq<U32>, q: nat, p: nat)
    decreases p - q
  {
    q == p || (q < p && q + 2 <= |code| && BoundaryFrom(code, After(code, q), p))
  }

  ghost predicate Boundary(code: seq<U32>, p: nat) { BoundaryFrom(code, 0, p) }

  lemma {:induction false} BoundaryWalks(code: seq<U32>, q: nat, p: nat)
    requires q <= |code| && Walks(code, q) && BoundaryFrom(code, q, p)
    ensures p <= |code| && Walks(code, p)
    decreases p - q
  {
    if q < p {
      BoundaryWalks(code, After(code, q), p);
    }
  }

  lemma {:induction false} BoundaryAfter(code: seq<U32>, q: nat, p: nat)
    requires BoundaryFrom(code, q, p) && p + 2 <= |code|
    ensures BoundaryFrom(code, q, After(code, p))
    decreases p - q
  {
    if q < p {
      BoundaryAfter(code, After(code, q), p);
    }
  }

  datatype Result = Success | InvalidCode | UnsupportedCode | Interrupted

  // Whether a stop has been requested; it can be at any time.
  method StopRequested() returns (stop: bool) {
    stop := *;
  }

  method ValidateInstructions(words: seq<U32>) returns (r: Result)
    ensures r == Success ==> Validated(words)
    ensures r == InvalidCode ==> !Validated(words)
    ensures r != UnsupportedCode
  {
    hide Walks;
    if |words| % 2 != 0 {
      return InvalidCode;
    }
    var position := 0;
    while position < |words|
      invariant position <= |words| && position % 2 == 0
      invariant Walks(words, 0) == Walks(words, position)
    {
      var stop := StopRequested();
      if stop {
        return Interrupted;
      }
      var instruction, count := words[position], words[position + 1];
      ghost var line := position;
      WalksOn(words, line);
      position := position + 2;
      if IsLiteral(instruction) {
        var lines := Lines(count);
        if lines > (|words| - position) / 2 {
          assert After(words, line) > |words|;
          return InvalidCode;
        }
        assert lines * 2 <= |words| - position;
        position := position + lines * 2;
      }
      assert position == After(words, line) && position <= |words|;
    }
    WalksOn(words, position);
    return Success;
  }

  // -------- literal and memory copies --------

  // The copy of instruction E: whole words while four bytes are left, then single bytes.
  function CopyWords(mem: Memory, dst: U32, words: seq<U32>, b: nat): Memory
    requires b <= 4 * |words|
    decreases b
  {
    if b >= 4 then CopyWords(Write32(mem, dst, words[0]), Wrap(dst + 4), words[1..], b - 4)
    else if b > 0 then CopyTail(mem, dst, words[0], b)
    else mem
  }

  // The lowest b bytes of a word, one by one.
  function CopyTail(mem: Memory, dst: U32, word: nat, b: nat): Memory
    decreases b
  {
    if b == 0 then mem else CopyTail(Write8(mem, dst, word), Wrap(dst + 1), word / 0x100, b - 1)
  }

  // The little-endian bytes of some words.
  function Bytes(words: seq<U32>): (bytes: seq<Byte>)
    ensures |bytes| == 4 * |words|
  {
    if words == [] then []
    else [ByteOf(words[0], 0), ByteOf(words[0], 1), ByteOf(words[0], 2), ByteOf(words[0], 3)] + Bytes(words[1..])
  }

  // What a copy is for: byte after byte.
  function Store(mem: Memory, dst: U32, data: seq<Byte>): Memory
    decreases |data|
  {
    if data == [] then mem else Store(mem[dst as nat := data[0]], Wrap(dst + 1), data[1..])
  }

  lemma StoreFour(mem: Memory, dst: U32, v: U32, rest: seq<Byte>)
    requires dst % 4 == 0
    ensures Store(mem, dst, [ByteOf(v, 0), ByteOf(v, 1), ByteOf(v, 2), ByteOf(v, 3)] + rest)
      == Store(Write32(mem, dst, v), Wrap(dst + 4), rest)
  {
    hide Store, ByteOf;
    var d := [ByteOf(v, 0), ByteOf(v, 1), ByteOf(v, 2), ByteOf(v, 3)] + rest;
    assert dst / 4 * 4 == dst && dst + 4 <= 0x1_0000_0000;
    StoreOne(mem, dst, d);
    StoreOne(mem[dst as nat := d[0]], dst + 1, d[1..]);
    StoreOne(mem[dst as nat := d[0]][dst + 1 := d[1]], dst + 2, d[2..]);
    StoreOne(mem[dst as nat := d[0]][dst + 1 := d[1]][dst + 2 := d[2]], dst + 3, d[3..]);
    assert d[1..][1..] == d[2..] && d[2..][1..] == d[3..] && d[3..][1..] == rest;
  }

  lemma StoreOne(mem: Memory, dst: U32, data: seq<Byte>)
    requires data != []
    ensures Store(mem, dst, data) == Store(mem[dst as nat := data[0]], Wrap(dst + 1), data[1..])
  {
  }

  lemma {:induction false} TailStores(mem: Memory, dst: U32, word: nat, b: nat)
    requires b < 4
    decreases b
    ensures CopyTail(mem, dst, word, b) == Store(mem, dst, [ByteOf(word, 0), ByteOf(word, 1), ByteOf(word, 2), ByteOf(word, 3)][..b])
  {
    var d := [ByteOf(word, 0), ByteOf(word, 1), ByteOf(word, 2), ByteOf(word, 3)][..b];
    if b > 0 {
      var next := word / 0x100;
      var d' := [ByteOf(next, 0), ByteOf(next, 1), ByteOf(next, 2), ByteOf(next, 3)][..b - 1];
      assert d[1..] == d';
      TailStores(Write8(mem, dst, word), Wrap(dst + 1), next, b - 1);
    }
  }

  /** To an aligned address, instruction E stores exactly its b bytes of literal data. */
  lemma {:induction false} LiteralIsStored(mem: Memory, dst: U32, words: seq<U32>, b: nat)
    requires b <= 4 * |words| && dst % 4 == 0
    ensures CopyWords(mem, dst, words, b) == Store(mem, dst, Bytes(words)[..b])
    decreases b
  {
    if b >= 4 {
      var rest := Bytes(words[1..])[..b - 4];
      assert Bytes(words)[..b] ==
        [ByteOf(words[0], 0), ByteOf(words[0], 1), ByteOf(words[0], 2), ByteOf(words[0], 3)] + rest;
      StoreFour(mem, dst, words[0], rest);
      assert Wrap(dst + 4) % 4 == 0;
      LiteralIsStored(Write32(mem, dst, words[0]), Wrap(dst + 4), words[1..], b - 4);
    } else if b > 0 {
      TailStores(mem, dst, words[0], b);
      assert Bytes(words)[..b] == [ByteOf(words[0], 0), ByteOf(words[0], 1), ByteOf(words[0], 2), ByteOf(words[0], 3)][..b];
    }
  }

  // How far address a lies after d, around the address space.
  function Distance(a: U32, d: U32): nat { if a >= d then a - d else a + 0x1_0000_0000 - d }

  lemma {:induction false} StoreKeeps(mem: Memory, dst: U32, data: seq<Byte>, a: U32)
    requires |data| <= Distance(a, dst)
    ensures Read8(Store(mem, dst, data), a) == Read8(mem, a)
    decreases |data|
  {
    if data != [] {
      StoreKeeps(mem[dst as nat := data[0]], Wrap(dst + 1), data[1..], a);
    }
  }

  lemma {:induction false} CopyTailKeeps(mem: Memory, dst: U32, word: nat, b: nat, a: U32)
    requires b <= Distance(a, dst)
    ensures Read8(CopyTail(mem, dst, word, b), a) == Read8(mem, a)
    decreases b
  {
    if b > 0 {
      CopyTailKeeps(Write8(mem, dst, word), Wrap(dst + 1), word / 0x100, b - 1, a);
    }
  }

  lemma {:induction false} CopyWordsKeeps(mem: Memory, dst: U32, words: seq<U32>, b: nat, a: U32)
    requires b <= 4 * |words| && b <= Distance(a, dst) <= 0xFFFF_FFFC
    ensures Read8(CopyWords(mem, dst, words, b), a) == Read8(mem, a)
    decreases b
  {
    if b >= 4 {
      CopyWordsKeeps(Write32(mem, dst, words[0]), Wrap(dst + 4), words[1..], b - 4, a);
      WriteKeeps(mem, dst, words[0], a);
    } else if b > 0 {
      CopyTailKeeps(mem, dst, words[0], b, a);
    }
  }

  lemma WriteKeeps(mem: Memory, dst: U32, v: U32, a: U32)
    requires 4 <= Distance(a, dst) <= 0xFFFF_FFFC
    ensures Read8(Write32(mem, dst, v), a) == Read8(mem, a)
  {
    hide ByteOf;
    assert dst - 3 <= dst / 4 * 4 <= dst;
  }

  // The words 1, 0, 0, ... tell a misplaced copy.
  function Probe(b: nat): (words: seq<U32>)
    ensures b <= 4 * |words| && |words| >= 1 && words[0] == 1
  {
    [1] + seq(b, _ => 0)
  }

  lemma MisalignedCopyDiffers(dst: U32, b: U32)
    requires dst % 4 != 0 && b >= 4
    ensures CopyWords(map[], dst, Probe(b), b) != Store(map[], dst, Bytes(Probe(b))[..b])
  {
    hide ByteOf, Store, Write32, Read8, Bytes, Probe;
    var words, data := Probe(b), Bytes(Probe(b))[..b];
    var copied := Write32(map[], dst, 1);
    assert CopyWords(map[], dst, words, b) == CopyWords(copied, Wrap(dst + 4), words[1..], b - 4);
    CopyWordsKeeps(copied, Wrap(dst + 4), words[1..], b - 4, dst);
    MisplacedOne(dst);
    FirstByte(words);
    StoreOne(map[], dst, data);
    StoreKeeps(map[dst as nat := data[0]], Wrap(dst + 1), data[1..], dst);
    ReadBack(dst, 1);
  }

  lemma MisplacedOne(dst: U32)
    requires dst % 4 != 0
    ensures Read8(Write32(map[], dst, 1), dst) == 0
  {
    var w := dst / 4 * 4;
    assert ByteOf(1, 1) == ByteOf(0, 0) && ByteOf(1, 2) == ByteOf(0, 1) && ByteOf(1, 3) == ByteOf(0, 2);
    assert dst in {w + 1, w + 2, w + 3};
  }

  lemma FirstByte(words: seq<U32>)
    requires words != [] && words[0] == 1
    ensures Bytes(words)[0] == 1
  {
  }

  lemma ReadBack(a: U32, v: Byte)
    ensures Read8(map[a as nat := v], a) == v
  {
  }

  /**
    Exactly when instruction E stores its literal: word writes are aligned down, so a misaligned
    copy is right only if it is shorter than a word.
  */
  lemma LiteralStoredIff(dst: U32, b: U32)
    ensures (forall mem: Memory, words: seq<U32> | b <= 4 * |words| ::
      CopyWords(mem, dst, words, b) == Store(mem, dst, Bytes(words)[..b])) <==> dst % 4 == 0 || b < 4
  {
    if dst % 4 == 0 || b < 4 {
      forall mem: Memory, words: seq<U32> | b <= 4 * |words|
        ensures CopyWords(mem, dst, words, b) == Store(mem, dst, Bytes(words)[..b])
      {
        if dst % 4 == 0 {
          LiteralIsStored(mem, dst, words, b);
        } else if b > 0 {
          TailStores(mem, dst, words[0], b);
          assert Bytes(words)[..b] ==
            [ByteOf(words[0], 0), ByteOf(words[0], 1), ByteOf(words[0], 2), ByteOf(words[0], 3)][..b];
        }
      }
    } else {
      MisalignedCopyDiffers(dst, b);
    }
  }

  // The copy of instruction F: whole words, then single bytes, each read when it is its turn.
  function MoveWords(mem: Memory, src: U32, dst: U32, b: nat): Memory
    decreases b
  {
    if b >= 4 then MoveWords(Write32(mem, dst, Read32(mem, src)), Wrap(src + 4), Wrap(dst + 4), b - 4)
    else MoveBytes(mem, src, dst, b)
  }

  function MoveBytes(mem: Memory, src: U32, dst: U32, b: nat): Memory
    decreases b
  {
    if b == 0 then mem else MoveBytes(Write8(mem, dst, Read8(mem, src)), Wrap(src + 1), Wrap(dst + 1), b - 1)
  }

  lemma MoveOne(mem: Memory, src: U32, dst: U32, b: nat)
    requires b > 0
    ensures MoveBytes(mem, src, dst, b) == MoveBytes(mem[dst as nat := Read8(mem, src)], Wrap(src + 1), Wrap(dst + 1), b - 1)
  {
    assert ByteOf(Read8(mem, src), 0) == Read8(mem, src);
  }

  lemma WordBytes(b0: Byte, b1: Byte, b2: Byte, b3: Byte)
    ensures var v := b0 + b1 * 0x100 + b2 * 0x1_0000 + b3 * 0x100_0000;
      ByteOf(v, 0) == b0 && ByteOf(v, 1) == b1 && ByteOf(v, 2) == b2 && ByteOf(v, 3) == b3
  {
    var v := b0 + b1 * 0x100 + b2 * 0x1_0000 + b3 * 0x100_0000;
    assert v / 0x100 == b1 + b2 * 0x100 + b3 * 0x1_0000;
    assert v / 0x100 / 0x100 == b2 + b3 * 0x100;
    assert v / 0x100 / 0x100 / 0x100 == b3;
    assert ByteOf(v, 1) == ByteOf(v / 0x100, 0);
    assert ByteOf(v, 2) == ByteOf(v / 0x100, 1) == ByteOf(v / 0x100 / 0x100, 0);
    assert ByteOf(v, 3) == ByteOf(v / 0x100, 2) == ByteOf(v / 0x100 / 0x100, 1) == ByteOf(v / 0x100 / 0x100 / 0x100, 0);
  }

  lemma WrapAligned(a: U32)
    requires a % 4 == 0
    ensures Wrap(a + 4) % 4 == 0
  {
    if a + 4 == 0x1_0000_0000 {
      assert Wrap(a + 4) == 0;
    } else {
      assert Wrap(a + 4) == a + 4;
    }
  }

  lemma MoveFour(mem: Memory, src: U32, dst: U32, b: nat)
    requires b >= 4 && src % 4 == 0 && dst % 4 == 0
    ensures MoveBytes(mem, src, dst, b)
      == MoveBytes(Write32(mem, dst, Read32(mem, src)), Wrap(src + 4), Wrap(dst + 4), b - 4)
  {
    hide ByteOf, MoveBytes, Read32, Write32;
    assert dst + 4 <= 0x1_0000_0000 && src + 4 <= 0x1_0000_0000;
    var m0, m1, m2, m3 := Read8(mem, src), Read8(mem, src + 1), Read8(mem, src + 2), Read8(mem, src + 3);
    WordRead(mem, src);
    WordWritten(mem, dst, Read32(mem, src));
    var mem1 := mem[dst as nat := m0];
    var mem2 := mem1[dst + 1 := m1];
    var mem3 := mem2[dst + 2 := m2];
    MoveOne(mem, src, dst, b);
    MoveOne(mem1, src + 1, dst + 1, b - 1);
    MoveOne(mem2, src + 2, dst + 2, b - 2);
    MoveOne(mem3, src + 3, dst + 3, b - 3);
  }

  lemma WordRead(mem: Memory, a: U32)
    requires a % 4 == 0
    ensures forall i | 0 <= i < 4 :: ByteOf(Read32(mem, a), i) == Read8(mem, a + i)
  {
    hide ByteOf;
    WordBytes(Read8(mem, a), Read8(mem, a + 1), Read8(mem, a + 2), Read8(mem, a + 3));
  }

  lemma WordWritten(mem: Memory, a: U32, v: U32)
    requires a % 4 == 0
    ensures Write32(mem, a, v) ==
      mem[a as nat := ByteOf(v, 0)][a + 1 := ByteOf(v, 1)][a + 2 := ByteOf(v, 2)][a + 3 := ByteOf(v, 3)]
  {
  }

  /** Between aligned addresses, instruction F moves byte after byte, even if the areas overlap. */
  lemma {:induction false} AlignedMove(mem: Memory, src: U32, dst: U32, b: nat)
    requires src % 4 == 0 && dst % 4 == 0
    ensures MoveWords(mem, src, dst, b) == MoveBytes(mem, src, dst, b)
    decreases b
  {
    hide Write32, Read32, MoveBytes, Wrap;
    if b >= 4 {
      MoveFour(mem, src, dst, b);
      WrapAligned(src);
      WrapAligned(dst);
      AlignedMove(Write32(mem, dst, Read32(mem, src)), Wrap(src + 4), Wrap(dst + 4), b - 4);
    }
  }

  // Memories that read the same everywhere.
  ghost predicate SameBytes(mem: Memory, other: Memory) { forall a: nat :: Read8(mem, a) == Read8(other, a) }

  lemma {:induction false} MoveBytesKeeps(mem: Memory, src: U32, dst: U32, b: nat, a: U32)
    requires b <= Distance(a, dst)
    ensures Read8(MoveBytes(mem, src, dst, b), a) == Read8(mem, a)
    decreases b
  {
    if b > 0 {
      MoveOne(mem, src, dst, b);
      MoveBytesKeeps(mem[dst as nat := Read8(mem, src)], Wrap(src + 1), Wrap(dst + 1), b - 1, a);
    }
  }

  lemma {:induction false} MoveWordsKeeps(mem: Memory, src: U32, dst: U32, b: nat, a: U32)
    requires b <= Distance(a, dst) <= 0xFFFF_FFFC
    ensures Read8(MoveWords(mem, src, dst, b), a) == Read8(mem, a)
    decreases b
  {
    hide Write32, Read32, Read8;
    if b >= 4 {
      MoveWordsKeeps(Write32(mem, dst, Read32(mem, src)), Wrap(src + 4), Wrap(dst + 4), b - 4, a);
      WriteKeeps(mem, dst, Read32(mem, src), a);
    } else {
      MoveBytesKeeps(mem, src, dst, b, a);
    }
  }

  // A word is moved between the aligned addresses below.
  lemma WordMoved(mem: Memory, src: U32, dst: U32, j: nat)
    requires j < 4
    ensures Read8(Write32(mem, dst, Read32(mem, src)), dst / 4 * 4 + j) == Read8(mem, src / 4 * 4 + j)
  {
    hide ByteOf;
    var w, d := src / 4 * 4, dst / 4 * 4;
    WordBytes(Read8(mem, w), Read8(mem, w + 1), Read8(mem, w + 2), Read8(mem, w + 3));
  }

  // The first word decides what the rest of a move keeps: its first byte, and the one before.
  lemma FirstWordStays(mem: Memory, src: U32, dst: U32, b: U32, j: nat)
    requires b >= 4 && j <= dst % 4 <= j + 1
    ensures Read8(MoveWords(mem, src, dst, b), dst / 4 * 4 + j) == Read8(mem, src / 4 * 4 + j)
  {
    hide Write32, Read32, Read8, Wrap, Distance;
    AfterFirst(dst, dst / 4 * 4 + j, b);
    MoveWordsKeeps(Write32(mem, dst, Read32(mem, src)), Wrap(src + 4), Wrap(dst + 4), b - 4, dst / 4 * 4 + j);
    WordMoved(mem, src, dst, j);
  }

  lemma AfterFirst(dst: U32, a: U32, b: U32)
    requires b >= 4 && a <= dst <= a + 1
    ensures b - 4 <= Distance(a, Wrap(dst + 4)) <= 0xFFFF_FFFC
  {
  }

  /** Bytes at different places in their words: the first one tells. */
  lemma ShiftedMoveDiffers(src: U32, dst: U32, b: U32)
    requires src % 4 != dst % 4 && b >= 4
    ensures var mem := map[src as nat := 1];
      Read8(MoveWords(mem, src, dst, b), dst) != Read8(MoveBytes(mem, src, dst, b), dst)
  {
    hide Write32, Read32, MoveBytes, MoveWords;
    var mem := map[src as nat := 1];
    FirstWordStays(mem, src, dst, b, dst % 4);
    MoveOne(mem, src, dst, b);
    MoveBytesKeeps(mem[dst as nat := 1], Wrap(src + 1), Wrap(dst + 1), b - 1, dst);
  }

  /** At the same place, but not the first: the byte before the first is moved too. */
  lemma EarlyMoveDiffers(src: U32, dst: U32, b: U32)
    requires src % 4 == dst % 4 != 0 && b >= 4 && src != dst
    ensures var mem := map[src - 1 := 1];
      Read8(MoveWords(mem, src, dst, b), dst - 1) != Read8(MoveBytes(mem, src, dst, b), dst - 1)
  {
    hide Write32, Read32, MoveBytes, MoveWords;
    var mem := map[src - 1 := 1];
    FirstWordStays(mem, src, dst, b, dst % 4 - 1);
    MoveBytesKeeps(mem, src, dst, b, dst - 1);
  }

  lemma {:induction false} MoveToItself(mem: Memory, a: U32, b: nat)
    ensures SameBytes(MoveWords(mem, a, a, b), mem) && SameBytes(MoveBytes(mem, a, a, b), mem)
    decreases b
  {
    hide Write32, Read32;
    if b > 0 {
      MoveOne(mem, a, a, b);
      MoveToItself(mem[a as nat := Read8(mem, a)], Wrap(a + 1), b - 1);
    }
    if b >= 4 {
      var moved := Write32(mem, a, Read32(mem, a));
      MoveToItself(moved, Wrap(a + 4), b - 4);
      forall x: nat ensures Read8(moved, x) == Read8(mem, x) {
        WordToItself(mem, a, x);
      }
    }
  }

  lemma WordToItself(mem: Memory, a: U32, x: nat)
    ensures Read8(Write32(mem, a, Read32(mem, a)), x) == Read8(mem, x)
  {
    hide ByteOf;
    var w := a / 4 * 4;
    WordBytes(Read8(mem, w), Read8(mem, w + 1), Read8(mem, w + 2), Read8(mem, w + 3));
  }

  /**
    Exactly when instruction F moves its bytes, whatever the memory: between aligned addresses,
    overlapping or not, for less than a word, and from a place to itself.
  */
  lemma MovedIff(src: U32, dst: U32, b: U32)
    ensures (forall mem: Memory :: SameBytes(MoveWords(mem, src, dst, b), MoveBytes(mem, src, dst, b)))
      <==> (src % 4 == 0 && dst % 4 == 0) || b < 4 || src == dst
  {
    hide Write32, Read32, Read8, MoveBytes;
    if (src % 4 == 0 && dst % 4 == 0) || b < 4 || src == dst {
      forall mem: Memory ensures SameBytes(MoveWords(mem, src, dst, b), MoveBytes(mem, src, dst, b)) {
        if src == dst {
          MoveToItself(mem, src, b);
        } else if b >= 4 {
          AlignedMove(mem, src, dst, b);
        }
      }
    } else {
      if src % 4 != dst % 4 {
        ShiftedMoveDiffers(src, dst, b);
      } else {
        EarlyMoveDiffers(src, dst, b);
      }
    }
  }

  // -------- the machine --------

  // `cond` and the bits of `condstack` are the conditions that are open.
  datatype State = State(
    pos: nat, offset: U32, datareg: U32, cond: bool, condstack: U32,
    loopstart: nat, loopcount: U32, loopcond: bool, loopcondstack: U32, c5count: U32, mem: Memory)

  datatype Outcome = Next(state: State) | Halt(result: Result, mem: Memory)

  function Init(mem: Memory): State { State(0, 0, 0, true, 0, 0, 0, true, 0, 0, mem) }

  // All instructions below D0 but C5, and those above D2, wait for the condition.
  predicate Conditional(op: nat) { (op < 0xD0 && op != 0xC5) || op > 0xD2 }

  predicate IsLoopOp(op: nat) { op == 0xC0 || op == 0xD1 || op == 0xD2 }

  function Push(stack: U32, cond: bool): U32 { Wrap(stack * 2 + if cond then 1 else 0) }

  // The comparisons of instructions 3 to A; the halfword ones mask what they read.
  predicate Holds(mem: Memory, kind: nat, addr: U32, b: U32) {
    var chk16 := Read16(mem, addr);
    var chk, val := AndBits(0xFFFF - b / 0x1_0000, chk16, 16), b % 0x1_0000;
    if kind == 3 then b > Read32(mem, addr)
    else if kind == 4 then b < Read32(mem, addr)
    else if kind == 5 then b == Read32(mem, addr)
    else if kind == 6 then b != Read32(mem, addr)
    else if kind == 7 then val > chk
    else if kind == 8 then val < chk
    else if kind == 9 then val == chk
    else val != chk
  }

  function If(t: State, holds: bool): State {
    t.(condstack := Push(t.condstack, t.cond), cond := holds)
  }

  function EndIf(t: State): State {
    t.(cond := t.condstack == 0 || t.condstack % 2 == 1, condstack := t.condstack / 2)
  }

  // D4: an operation on the data register.
  function DataOp(kind: nat, d: U32, b: U32): U32
    requires kind <= 8
  {
    WordSizes();
    var n := if b % 0x100 > 31 then 32 else b % 0x100;
    if kind == 0 then Wrap(d + b)
    else if kind == 1 then OrBits(d, b, 32)
    else if kind == 2 then AndBits(d, b, 32)
    else if kind == 3 then XorBits(d, b, 32)
    else if kind == 4 then ShiftLeft(d, n)
    else if kind == 5 then ShiftRight(d, n)
    else if kind == 6 then RotateRight(d, b % 0x20)
    else if kind == 7 then (if d < 0x8000_0000 then ShiftRight(d, n) else 0xFFFF_FFFF - ShiftRight(0xFFFF_FFFF - d, n))
    else Wrap(d * b)
  }

  function ShiftLeft(d: U32, n: nat): U32
    decreases n
  {
    if n == 0 then d else ShiftLeft(Wrap(d * 2), n - 1)
  }

  function ShiftRight(d: U32, n: nat): U32
    decreases n
  {
    if n == 0 then d else ShiftRight(d / 2, n - 1)
  }

  function RotateRight(d: U32, n: nat): U32
    decreases n
  {
    if n == 0 then d else RotateRight(d / 2 + d % 2 * 0x8000_0000, n - 1)
  }

  // An instruction other than loops and copies; the cursor is past its line already.
  function Simple(t: State, a: U32, b: U32): Outcome {
    var op, low := Op(a), a % 0x1000_0000;
    var at := Wrap(low + t.offset);
    if op < 0x10 then Next(t.(mem := Write32(t.mem, at, b)))
    else if op < 0x20 then Next(t.(mem := Write16(t.mem, at, b)))
    else if op < 0x30 then Next(t.(mem := Write8(t.mem, at, b)))
    else if op < 0xB0 then Next(If(t, Holds(t.mem, op / 16, if low == 0 then t.offset else low, b)))
    else if op < 0xC0 then Next(t.(offset := Read32(t.mem, at)))
    else if op == 0xC5 then
      var count := Wrap(t.c5count + 1);
      if !t.cond then Next(t.(c5count := count))
      else Next(If(t.(c5count := count), AndBits(count, b, 16) == b / 0x1_0000))
    else if op == 0xC6 then Next(t.(mem := Write32(t.mem, b, t.offset)))
    else if op == 0xD0 then Next(EndIf(t))
    else if op == 0xD3 then Next(t.(offset := b))
    else if op == 0xD4 then
      if a % 0x100 > 8 then Halt(UnsupportedCode, t.mem) else Next(t.(datareg := DataOp(a % 0x100, t.datareg, b)))
    else if op == 0xD5 then Next(t.(datareg := b))
    else if op == 0xD6 then
      Next(t.(mem := Write32(t.mem, Wrap(b + t.offset), t.datareg), offset := Wrap(t.offset + 4)))
    else if op == 0xD7 then
      Next(t.(mem := Write16(t.mem, Wrap(b + t.offset), t.datareg), offset := Wrap(t.offset + 2)))
    else if op == 0xD8 then
      Next(t.(mem := Write8(t.mem, Wrap(b + t.offset), t.datareg), offset := Wrap(t.offset + 1)))
    else if op == 0xD9 then Next(t.(datareg := Read32(t.mem, Wrap(b + t.offset))))
    else if op == 0xDA then Next(t.(datareg := Read16(t.mem, Wrap(b + t.offset))))
    else if op == 0xDB then Next(t.(datareg := Read8(t.mem, Wrap(b + t.offset))))
    else if op == 0xDC then Next(t.(offset := Wrap(t.offset + b)))
    else Halt(UnsupportedCode, t.mem)
  }

  // FOR, NEXT and NEXT+FLUSH.
  function For(t: State, b: U32): State {
    t.(loopstart := t.pos, loopcount := b, loopcond := t.cond, loopcondstack := t.condstack)
  }

  function NextLoop(t: State, flush: bool): State {
    var u := t.(cond := t.loopcond, condstack := t.loopcondstack);
    if u.loopcount > 0 then u.(loopcount := u.loopcount - 1, pos := u.loopstart)
    else if flush then Flushed(u)
    else u
  }

  // The end of the last loop also clears the registers and the conditions.
  function Flushed(u: State): State {
    u.(offset := 0, datareg := 0, condstack := 0, cond := true, loopstart := u.pos, loopcondstack := 0, loopcond := true)
  }

  /** One step from an instruction boundary. */
  function Step(code: seq<U32>, s: State): Outcome
    requires s.pos + 2 <= |code| && After(code, s.pos) <= |code|
  {
    var a, b := code[s.pos], code[s.pos + 1];
    var op, t, after := Op(a), s.(pos := s.pos + 2), After(code, s.pos);
    if Conditional(op) && !s.cond then Next(s.(pos := after))
    else if op == 0xC0 then Next(For(t, b))
    else if op == 0xD1 || op == 0xD2 then Next(NextLoop(t, op == 0xD2))
    else if op / 16 == 0xE then
      Next(s.(pos := after, mem := CopyWords(s.mem, Wrap(a % 0x1000_0000 + s.offset), code[s.pos + 2..after], b)))
    else if op / 16 == 0xF then Next(t.(mem := MoveWords(s.mem, s.offset, a % 0x1000_0000, b)))
    else Simple(t, a, b)
  }

  // -------- termination --------

  // Cursor and loop start are instruction boundaries, and the loop start is not ahead.
  ghost predicate Good(code: seq<U32>, s: State) {
    && Validated(code) && Boundary(code, s.pos) && Boundary(code, s.loopstart) && s.loopstart <= s.pos <= |code|
  }

  lemma GoodLine(code: seq<U32>, s: State)
    requires Good(code, s) && s.pos < |code|
    ensures s.pos + 2 <= |code| && After(code, s.pos) <= |code| && Boundary(code, After(code, s.pos))
  {
    BoundaryWalks(code, 0, s.pos);
    BoundaryAfter(code, 0, s.pos);
  }

  // The state after a line other than loops and copies is at the next line.
  lemma SimpleAdvances(t: State, a: U32, b: U32)
    ensures Simple(t, a, b).Next? ==> var u := Simple(t, a, b).state;
      u.pos == t.pos && u.loopstart == t.loopstart && u.loopcount == t.loopcount
      && u.loopcond == t.loopcond && u.loopcondstack == t.loopcondstack
  {
    hide Holds, DataOp, Write8, Write16, Write32, Read32, Read16, AndBits, Push;
  }

  /** A step keeps the boundaries, and decreases the lexicographic measure. */
  lemma StepDecreases(code: seq<U32>, s: State)
    requires Good(code, s) && s.pos < |code|
    ensures s.pos + 2 <= |code| && After(code, s.pos) <= |code|
    ensures Step(code, s).Next? ==> var u := Step(code, s).state;
      Good(code, u) && (u.loopstart > s.loopstart
        || (u.loopstart == s.loopstart && u.loopcount < s.loopcount)
        || (u.loopstart == s.loopstart && u.loopcount == s.loopcount && u.pos > s.pos))
  {
    hide Simple, CopyWords, MoveWords, Boundary, Validated;
    GoodLine(code, s);
    SimpleAdvances(s.(pos := s.pos + 2), code[s.pos], code[s.pos + 1]);
  }

  /** The result and the memory of a run that is not interrupted. It always ends. */
  ghost function Run(code: seq<U32>, s: State): (Result, Memory)
    requires Good(code, s)
    decreases |code| - s.loopstart, s.loopcount, |code| - s.pos
  {
    if s.pos == |code| then (Success, s.mem)
    else
      StepDecreases(code, s);
      match Step(code, s)
      case Halt(result, mem) => (result, mem)
      case Next(u) => Run(code, u)
  }

  lemma InitIsGood(code: seq<U32>, mem: Memory)
    requires Validated(code)
    ensures Good(code, Init(mem))
  {
  }

  // -------- the interpreter --------

  class AREngine {
    // The bus.
    var mem: Memory

    constructor (mem: Memory)
      ensures this.mem == mem
    {
      this.mem := mem;
    }

    /**
      Runs a code. Unless a stop is requested, the result and the bus are those of the step
      semantics; a code that is not valid changes nothing.
    */
    method RunCheat(code: seq<U32>) returns (result: Result, stopped: bool)
      modifies this
      ensures !stopped && Validated(code) ==> (result, mem) == Run(code, Init(old(mem)))
      ensures !stopped && !Validated(code) ==> result == InvalidCode && mem == old(mem)
      ensures stopped ==> result == Interrupted || (result == Success && mem == old(mem))
    {
      hide Simple, CopyWords, MoveWords, Boundary, BoundaryFrom, Walks;
      var stop := StopRequested();
      if stop {
        return Success, true;
      }
      var validation := ValidateInstructions(code);
      if validation == Interrupted {
        return Success, true;
      }
      if validation != Success {
        return validation, false;
      }
      InitIsGood(code, mem);
      var s, started := Init(mem), false;
      while s.pos != |code|
        invariant Good(code, s) && s.mem == mem && Run(code, s) == Run(code, Init(old(mem)))
        invariant !started ==> mem == old(mem)
        decreases |code| - s.loopstart, s.loopcount, |code| - s.pos
      {
        stop := StopRequested();
        if stop {
          return if started then Interrupted else Success, true;
        }
        started := true;
        ghost var was := s;
        StepDecreases(code, s);
        var a, b := code[s.pos], code[s.pos + 1];
        var op := Op(a);
        s := s.(pos := s.pos + 2);
        if Conditional(op) && !s.cond {
          if op / 16 == 0xE {
            s := s.(pos := s.pos + Lines(b) * 2);
          }
        } else if op == 0xC0 {
          s := For(s, b);
        } else if op == 0xD1 || op == 0xD2 {
          s := NextLoop(s, op == 0xD2);
        } else if op / 16 == 0xE {
          stopped := CopyLiteral(Wrap(a % 0x1000_0000 + s.offset), code, s.pos, b);
          if stopped {
            return Interrupted, true;
          }
          s := s.(pos := s.pos + Lines(b) * 2, mem := mem);
        } else if op / 16 == 0xF {
          stopped := CopyMemory(s.offset, a % 0x1000_0000, b);
          if stopped {
            return Interrupted, true;
          }
          s := s.(mem := mem);
        } else {
          var outcome := Simple(s, a, b);
          if outcome.Halt? {
            mem := outcome.mem;
            return outcome.result, false;
          }
          s := outcome.state;
          mem := s.mem;
        }
        assert Step(code, was) == Next(s);
      }
      return Success, false;
    }

    // Instruction E, two words at a time, and then what is left of a line.
    method CopyLiteral(dst: U32, code: seq<U32>, at: nat, b: U32) returns (stopped: bool)
      requires at + Lines(b) * 2 <= |code|
      modifies this
      ensures !stopped ==> mem == CopyWords(old(mem), dst, code[at..at + Lines(b) * 2], b)
    {
      hide CopyWords, Write32, Wrap, Plus;
      ghost var end := at + Lines(b) * 2;
      var dstaddr, p, bytesleft: nat := dst, at, b;
      while bytesleft >= 8
        invariant at <= p && end == p + Lines(bytesleft) * 2
        invariant CopyWords(mem, dstaddr, code[p..end], bytesleft) == CopyWords(old(mem), dst, code[at..end], b)
      {
        var stop := StopRequested();
        if stop {
          return true;
        }
        OneLine(bytesleft);
        CopyTwoWords(mem, dstaddr, code, p, end, bytesleft);
        mem := Write32(mem, dstaddr, code[p]);
        mem := Write32(mem, Plus(dstaddr, 4), code[p + 1]);
        dstaddr, p, bytesleft := Plus(Plus(dstaddr, 4), 4), p + 2, bytesleft - 8;
      }
      if bytesleft > 0 {
        assert Lines(bytesleft) == 1;
        assert code[p..end] == [code[p], code[p + 1]];
        CopyRest(dstaddr, code[p], code[p + 1], bytesleft);
      } else {
        CopyNothing(mem, dstaddr, code[p..end]);
      }
      return false;
    }

    // The last line of a literal.
    method CopyRest(dst: U32, first: U32, second: U32, b: nat)
      requires 0 < b < 8
      modifies this
      ensures mem == CopyWords(old(mem), dst, [first, second], b)
    {
      hide Write32, Write8, Wrap;
      var dstaddr, leftover: nat, bytesleft: nat := dst, first, b;
      if bytesleft >= 4 {
        mem := Write32(mem, dstaddr, leftover);
        dstaddr := Plus(dstaddr, 4);
        leftover := second;
        bytesleft := bytesleft - 4;
        assert [first, second][1..] == [second];
      }
      assert CopyTail(mem, dstaddr, leftover, bytesleft) == CopyWords(old(mem), dst, [first, second], b);
      while bytesleft > 0
        invariant bytesleft < 4
        invariant CopyTail(mem, dstaddr, leftover, bytesleft) == CopyWords(old(mem), dst, [first, second], b)
      {
        mem := Write8(mem, dstaddr, leftover);
        dstaddr, leftover, bytesleft := Plus(dstaddr, 1), leftover / 0x100, bytesleft - 1;
      }
    }

    // Instruction F.
    method CopyMemory(src: U32, dst: U32, b: U32) returns (stopped: bool)
      modifies this
      ensures !stopped ==> mem == MoveWords(old(mem), src, dst, b)
    {
      hide Write32, Read32, Write8, Read8, Wrap;
      var srcaddr, dstaddr, bytesleft: nat := src, dst, b;
      while bytesleft >= 4
        invariant MoveWords(mem, srcaddr, dstaddr, bytesleft) == MoveWords(old(mem), src, dst, b)
      {
        var stop := StopRequested();
        if stop {
          return true;
        }
        mem := Write32(mem, dstaddr, Read32(mem, srcaddr));
        srcaddr, dstaddr, bytesleft := Plus(srcaddr, 4), Plus(dstaddr, 4), bytesleft - 4;
      }
      while bytesleft > 0
        invariant MoveBytes(mem, srcaddr, dstaddr, bytesleft) == MoveWords(old(mem), src, dst, b)
      {
        mem := Write8(mem, dstaddr, Read8(mem, srcaddr));
        srcaddr, dstaddr, bytesleft := Plus(srcaddr, 1), Plus(dstaddr, 1), bytesleft - 1;
      }
      return false;
    }
  }

  lemma OneLine(b: nat)
    requires b >= 8
    ensures Lines(b) == Lines(b - 8) + 1
  {
  }

  lemma CopyNothing(mem: Memory, dst: U32, words: seq<U32>)
    ensures CopyWords(mem, dst, words, 0) == mem
  {
  }

  lemma CopyTwoWords(mem: Memory, dst: U32, code: seq<U32>, p: nat, end: nat, b: nat)
    requires p + 2 <= end <= |code| && 8 <= b <= 4 * (end - p)
    ensures CopyWords(mem, dst, code[p..end], b) == CopyWords(
      Write32(Write32(mem, dst, code[p]), Plus(dst, 4), code[p + 1]), Plus(Plus(dst, 4), 4), code[p + 2..end], b - 8)
  {
    hide Write32;
    var words := code[p..end];
    assert words[1..] == code[p + 1..end] && words[1..][1..] == code[p + 2..end];
  }

  // -------- conditions --------

  // k conditions are open, all of them true: the binary number 1...1.
  ghost predicate Ones(stack: nat) { exists k: nat :: k <= 32 && stack + 1 == Pow2(k) }

  // What every run keeps of the conditions.
  ghost predicate AllOpen(s: State) {
    Ones(s.condstack) && Ones(s.loopcondstack) && s.loopcond
  }

  lemma PushKeepsOnes(stack: U32)
    requires Ones(stack)
    ensures Ones(Push(stack, true))
  {
    WordSizes();
    var k: nat :| k <= 32 && stack + 1 == Pow2(k);
    if k < 32 {
      assert Pow2(k + 1) == 2 * Pow2(k);
      Pow2Grows(k + 1, 32);
      assert Push(stack, true) + 1 == Pow2(k + 1);
    } else {
      assert Push(stack, true) == 0xFFFF_FFFF;
    }
  }

  lemma PopKeepsOnes(stack: U32)
    requires Ones(stack)
    ensures Ones(stack / 2) && (stack == 0 || stack % 2 == 1)
  {
    var k: nat :| k <= 32 && stack + 1 == Pow2(k);
    if k == 0 {
      assert stack / 2 == 0;
    } else {
      assert Pow2(k) == 2 * Pow2(k - 1);
      assert stack / 2 + 1 == Pow2(k - 1);
    }
  }

  lemma InitIsOpen(mem: Memory)
    ensures AllOpen(Init(mem))
  {
    assert Pow2(0) == 1;
  }

  /** A condition is only pushed while execution is on, and loops only start then. */
  lemma StepKeepsOpen(code: seq<U32>, s: State)
    requires s.pos + 2 <= |code| && After(code, s.pos) <= |code| && AllOpen(s)
    ensures Step(code, s).Next? ==> AllOpen(Step(code, s).state)
  {
    hide Ones, Holds, DataOp, Push, Write8, Write16, Write32, Read32, Read16, AndBits, CopyWords, MoveWords;
    PushKeepsOnes(s.condstack);
    PopKeepsOnes(s.condstack);
    InitIsOpen(s.mem);
  }

  /** So in every run ENDIF turns execution on. */
  lemma EndIfEnables(code: seq<U32>, s: State)
    requires s.pos + 2 <= |code| && After(code, s.pos) <= |code| && AllOpen(s) && Op(code[s.pos]) == 0xD0
    ensures Step(code, s).Next? && Step(code, s).state.cond
  {
    PopKeepsOnes(s.condstack);
  }

  // -------- loops --------

  // The lines from p up to q contain no loop instruction.
  ghost predicate Straight(code: seq<U32>, p: nat, q: nat)
    decreases q - p
  {
    p == q || (p < q && p + 2 <= |code| && !IsLoopOp(Op(code[p])) && After(code, p) <= q <= |code| && Straight(code, After(code, p), q))
  }

  // Execution of straight lines up to q.
  ghost function RunTo(code: seq<U32>, s: State, q: nat): (o: Outcome)
    requires Straight(code, s.pos, q)
    ensures o.Next? ==> SameLoop(o.state, s) && o.state.pos == q
    decreases q - s.pos
  {
    if s.pos == q then Next(s)
    else
      StraightStep(code, s, q);
      match Step(code, s)
      case Halt(result, mem) => Halt(result, mem)
      case Next(u) => RunTo(code, u, q)
  }

  ghost predicate SameLoop(u: State, s: State) {
    && u.loopstart == s.loopstart && u.loopcount == s.loopcount
    && u.loopcond == s.loopcond && u.loopcondstack == s.loopcondstack
  }

  lemma StraightStep(code: seq<U32>, s: State, q: nat)
    requires Straight(code, s.pos, q) && s.pos != q
    ensures s.pos + 2 <= |code| && After(code, s.pos) <= q <= |code|
    ensures Step(code, s).Next? ==> var u := Step(code, s).state;
      u.pos == After(code, s.pos) && SameLoop(u, s) && Straight(code, u.pos, q)
  {
    hide Simple, CopyWords, MoveWords;
    SimpleAdvances(s.(pos := s.pos + 2), code[s.pos], code[s.pos + 1]);
  }

  lemma {:induction false} RunThrough(code: seq<U32>, s: State, q: nat)
    requires Good(code, s) && Straight(code, s.pos, q)
    ensures match RunTo(code, s, q)
      case Halt(result, mem) => Run(code, s) == (result, mem)
      case Next(u) => Good(code, u) && Run(code, u) == Run(code, s)
    decreases q - s.pos
  {
    hide Step, Boundary, Validated;
    if s.pos != q {
      StraightStep(code, s, q);
      StepDecreases(code, s);
      if Step(code, s).Next? {
        RunThrough(code, Step(code, s).state, q);
      }
    }
  }

  // The body run n + 1 times from the loop's start, each time under the loop's conditions.
  ghost function Repeat(code: seq<U32>, s: State, q: nat, n: nat): Outcome
    requires Straight(code, s.pos, q)
    decreases n
  {
    match RunTo(code, s, q)
    case Halt(result, mem) => Halt(result, mem)
    case Next(u) =>
      var v := u.(cond := u.loopcond, condstack := u.loopcondstack);
      if n == 0 then Next(v) else Repeat(code, v.(pos := s.pos), q, n - 1)
  }

  /** FOR n ... NEXT runs its body n + 1 times and goes on behind NEXT, with everything cleared after NEXT FLUSH. */
  lemma {:induction false} LoopRepeats(code: seq<U32>, s: State, q: nat)
    requires Good(code, s) && s.loopstart == s.pos && Straight(code, s.pos, q)
    requires q + 2 <= |code| && Op(code[q]) in {0xD1, 0xD2}
    ensures match Repeat(code, s, q, s.loopcount)
      case Halt(result, mem) => Run(code, s) == (result, mem)
      case Next(u) =>
        var end := u.(loopcount := 0, pos := q + 2);
        var v := if Op(code[q]) == 0xD1 then end else Flushed(end);
        Good(code, v) && Run(code, v) == Run(code, s)
    decreases s.loopcount
  {
    hide Boundary, Validated, Simple, CopyWords, MoveWords;
    RunThrough(code, s, q);
    if RunTo(code, s, q).Next? {
      var u := RunTo(code, s, q).state;
      StepDecreases(code, u);
      var next := Step(code, u).state;
      if u.loopcount > 0 {
        LoopRepeats(code, next, q);
        RepeatIgnoresCount(code, next, next.(loopcount := u.loopcount), q, u.loopcount - 1);
      }
    }
  }

  // Straight code does not look at the loop counter.
  lemma StepIgnoresCount(code: seq<U32>, s: State, t: State, q: nat)
    requires Straight(code, s.pos, q) && s.pos != q && t == s.(loopcount := t.loopcount)
    ensures s.pos + 2 <= |code| && After(code, s.pos) <= |code|
    ensures match Step(code, s)
      case Halt(result, mem) => Step(code, t) == Halt(result, mem)
      case Next(u) => Step(code, t) == Next(u.(loopcount := t.loopcount))
  {
    hide Holds, DataOp, Push, Write8, Write16, Write32, Read32, Read16, AndBits, CopyWords, MoveWords;
    StraightStep(code, s, q);
  }

  lemma {:induction false} RunToIgnoresCount(code: seq<U32>, s: State, t: State, q: nat)
    requires Straight(code, s.pos, q) && t == s.(loopcount := t.loopcount)
    ensures match RunTo(code, s, q)
      case Halt(result, mem) => RunTo(code, t, q) == Halt(result, mem)
      case Next(u) => RunTo(code, t, q) == Next(u.(loopcount := t.loopcount))
    decreases q - s.pos
  {
    hide Step;
    if s.pos != q {
      StraightStep(code, s, q);
      StepIgnoresCount(code, s, t, q);
      if Step(code, s).Next? {
        RunToIgnoresCount(code, Step(code, s).state, Step(code, t).state, q);
      }
    }
  }

  lemma {:induction false} RepeatIgnoresCount(code: seq<U32>, s: State, t: State, q: nat, n: nat)
    requires Straight(code, s.pos, q) && t == s.(loopcount := t.loopcount)
    ensures match Repeat(code, s, q, n)
      case Halt(result, mem) => Repeat(code, t, q, n) == Halt(result, mem)
      case Next(u) => Repeat(code, t, q, n) == Next(u.(loopcount := t.loopcount))
    decreases n
  {
    RunToIgnoresCount(code, s, t, q);
    if RunTo(code, s, q).Next? && n > 0 {
      var u, w := RunTo(code, s, q).state, RunTo(code, t, q).state;
      RepeatIgnoresCount(code, u.(cond := u.loopcond, condstack := u.loopcondstack, pos := s.pos),
                         w.(cond := w.loopcond, condstack := w.loopcondstack, pos := t.pos), q, n - 1);
    }
  }
}
