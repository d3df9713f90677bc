/**
  Transfers of the DSi's AES engine (src/DSi_AES.cpp): what a transfer outputs is defined from the
  blocks that are fed to it, block by block as the engine computes it, and tied to RFC 3610. The
  block cipher is arbitrary.
*/
module AesTransfers {
  import opened Bits
  import opened Ccm

  type Word = w: seq<Byte> | |w| == 4 witness [0, 0, 0, 0]

  const FIFO_SIZE := 16

  // Bswap128: software's byte order against the cipher's.
  function Rev(b: Block): Block {
    seq(16, i requires 0 <= i < 16 => b[15 - i])
  }

  lemma RevRev(b: Block)
    ensures Rev(Rev(b)) == b
  {
  }

  function Join(words: seq<Word>): Block
    requires |words| == 4
  {
    var a: seq<Byte>, b: seq<Byte>, c: seq<Byte>, d: seq<Byte> := words[0], words[1], words[2], words[3];
    a + b + c + d
  }

  function Split(b: Block): (words: seq<Word>)
    ensures |words| == 4
  {
    [b[0..4], b[4..8], b[8..12], b[12..16]]
  }

  lemma JoinSplit(b: Block)
    ensures Join(Split(b)) == b
  {
  }

  // The first n blocks of a word stream.
  function BlocksOf(words: seq<Word>, n: nat): (blocks: seq<Block>)
    requires 4 * n <= |words|
    ensures |blocks| == n
  {
    seq(n, i requires 0 <= i < n => Join(words[4 * i..4 * i + 4]))
  }

  lemma NoBlocks(words: seq<Word>)
    ensures BlocksOf(words, 0) == []
  {
  }

  lemma BlocksOfMore(words: seq<Word>, n: nat)
    requires 4 * (n + 1) <= |words|
    ensures BlocksOf(words, n + 1) == BlocksOf(words, n) + [Join(words[4 * n..4 * n + 4])]
  {
  }

  lemma BlocksOfPrefix(words: seq<Word>, longer: seq<Word>, n: nat)
    requires words <= longer && 4 * n <= |words|
    ensures BlocksOf(longer, n) == BlocksOf(words, n)
  {
    forall i | 0 <= i < n ensures BlocksOf(longer, n)[i] == BlocksOf(words, n)[i] {
      assert longer[4 * i..4 * i + 4] == words[4 * i..4 * i + 4];
    }
  }

  // Zeroes from byte n on.
  function Pad(b: Block, n: nat): Block {
    seq(16, i requires 0 <= i < 16 => if i < n then b[i] else 0)
  }

  // What a transfer was started with; key and iv are in the cipher's byte order. Mode 0
  // decrypts and 1 encrypts with CCM, 2 and 3 are CTR.
  datatype Transfer = Transfer(mode: nat, key: Block, iv: Block, extra: nat, blocks: nat, macField: nat) {
    predicate Valid() {
      mode < 4 && extra < 0x1_0000 && blocks < 0x1_0000 && macField < 8 && (mode >= 2 ==> extra == 0)
    }

    // Tags shorter than four bytes do not exist.
    function TagLength(): nat { if macField < 1 then 4 else macField * 2 + 2 }

    function Rfc(): (c: Ccm)
      requires Valid()
      ensures c.Valid()
    {
      Ccm(key, iv[4..], TagLength())
    }

    // The counter of the i-th payload block.
    function Counter(i: nat): Block
      requires Valid()
    {
      if mode < 2 then Rfc().CounterBlock(i + 1) else CounterAt(iv, i)
    }

    // The i-th block after the cipher's key stream, and the text that is authenticated.
    function Payload(cipher: Cipher, fed: seq<Block>, i: nat): Block
      requires Valid() && extra <= i < |fed|
    {
      Xor(Rev(fed[i]), cipher(key, Counter(i - extra)))
    }

    function Text(cipher: Cipher, fed: seq<Block>, i: nat): Block
      requires Valid() && i < |fed|
    {
      if i < extra || mode == 1 then Rev(fed[i]) else Payload(cipher, fed, i)
    }

    // The authentication value over the blocks fed so far.
    function MacOf(cipher: Cipher, fed: seq<Block>): Block
      requires Valid() && mode < 2
    {
      var last := |fed| - 1;
      if last < 0 then cipher(key, Rfc().FirstBlock(extra > 0, 16 * blocks))
      else cipher(key, Xor(MacOf(cipher, fed[..last]), Text(cipher, fed, last)))
    }

    // The words output for the blocks fed so far.
    function OutOf(cipher: Cipher, fed: seq<Block>): seq<Word>
      requires Valid()
    {
      var last := |fed| - 1;
      if last < extra then [] else OutOf(cipher, fed[..last]) + Split(Rev(Payload(cipher, fed, last)))
    }

    // The tag, padded with zeroes to 16 bytes.
    function TagOf(cipher: Cipher, fed: seq<Block>): Block
      requires Valid() && mode < 2
    {
      Pad(Xor(MacOf(cipher, fed), Rfc().KeyStream(cipher, 0)), TagLength())
    }

    // All words of the transfer: an encryption's tag follows its payload.
    function Output(cipher: Cipher, fed: seq<Block>): seq<Word>
      requires Valid()
    {
      OutOf(cipher, fed) + if mode == 1 then Split(Rev(TagOf(cipher, fed))) else []
    }
  }

  lemma MacOfMore(t: Transfer, cipher: Cipher, fed: seq<Block>, b: Block)
    requires t.Valid() && t.mode < 2
    ensures t.MacOf(cipher, fed + [b]) == cipher(t.key, Xor(t.MacOf(cipher, fed), t.Text(cipher, fed + [b], |fed|)))
  {
    assert (fed + [b])[..|fed|] == fed;
  }

  lemma OutOfMore(t: Transfer, cipher: Cipher, fed: seq<Block>, b: Block)
    requires t.Valid()
    ensures t.OutOf(cipher, fed + [b]) == if |fed| < t.extra then t.OutOf(cipher, fed)
      else t.OutOf(cipher, fed) + Split(Rev(t.Payload(cipher, fed + [b], |fed|)))
  {
    assert (fed + [b])[..|fed|] == fed;
  }

  // The counter, the authentication value and the words output are what the blocks call for.
  ghost predicate Computed(t: Transfer, cipher: Cipher, fed: seq<Block>, done: nat, ctxIv: Block, curMac: Block, produced: seq<Word>)
    requires t.Valid()
  {
    && ctxIv == t.Counter(done) && produced == t.OutOf(cipher, fed)
    && (t.mode < 2 ==> curMac == t.MacOf(cipher, fed))
  }

  lemma ExtraComputed(t: Transfer, cipher: Cipher, fed: seq<Block>, b: Block, ctxIv: Block, curMac: Block, produced: seq<Word>)
    requires t.Valid() && t.mode < 2 && |fed| < t.extra && Computed(t, cipher, fed, 0, ctxIv, curMac, produced)
    ensures Computed(t, cipher, fed + [b], 0, ctxIv, cipher(t.key, Xor(curMac, Rev(b))), produced)
  {
    hide Xor, Rev, Split, Transfer.Counter, Transfer.MacOf, Transfer.OutOf;
    OutOfMore(t, cipher, fed, b);
    MacOfMore(t, cipher, fed, b);
  }

  lemma PayloadComputed(t: Transfer, cipher: Cipher, fed: seq<Block>, b: Block, ctxIv: Block, curMac: Block, curMac': Block,
                        produced: seq<Word>, out: Block)
    requires t.Valid() && t.extra <= |fed| < t.extra + t.blocks
    requires Computed(t, cipher, fed, |fed| - t.extra, ctxIv, curMac, produced)
    requires out == Xor(Rev(b), cipher(t.key, ctxIv))
    requires t.mode < 2 ==> curMac' == cipher(t.key, Xor(curMac, if t.mode == 1 then Rev(b) else out))
    ensures Computed(t, cipher, fed + [b], |fed| + 1 - t.extra, Inc(ctxIv), curMac', produced + Split(Rev(out)))
  {
    hide Xor, Rev, Split, Transfer.Counter, Transfer.MacOf, Transfer.OutOf, Inc;
    CounterNext(t, |fed| - t.extra);
    OutOfMore(t, cipher, fed, b);
    if t.mode < 2 {
      MacOfMore(t, cipher, fed, b);
    }
  }

  lemma TransferComputed(t: Transfer, cipher: Cipher, fed: seq<Block>, done: nat, ctxIv: Block, curMac: Block, produced: seq<Word>)
    requires t.Valid() && Computed(t, cipher, fed, done, ctxIv, curMac, produced)
    ensures produced == t.OutOf(cipher, fed)
  {
  }

  lemma {:induction false} OutOfPrefix(t: Transfer, cipher: Cipher, fed: seq<Block>, n: nat)
    requires t.Valid() && n <= |fed|
    ensures t.OutOf(cipher, fed[..n]) <= t.OutOf(cipher, fed)
  {
    if n < |fed| {
      var front := fed[..|fed| - 1];
      OutOfPrefix(t, cipher, front, n);
      assert front[..n] == fed[..n] && front + [fed[|fed| - 1]] == fed;
      OutOfMore(t, cipher, front, fed[|fed| - 1]);
    } else {
      assert fed[..n] == fed;
    }
  }

  // -------- counters --------

  lemma CounterNext(t: Transfer, i: nat)
    requires t.Valid() && i < t.blocks
    ensures Inc(t.Counter(i)) == t.Counter(i + 1)
  {
    hide Inc;
    if t.mode < 2 {
      IncCounts(t.Rfc(), i + 1);
    }
  }

  lemma CounterStart(iv: Block)
    ensures CounterAt(iv, 0) == iv
  {
  }

  // Clearing the last three bytes of a CCM counter gives counter 0.
  lemma CounterZero(t: Transfer, i: nat)
    requires t.Valid() && t.mode < 2
    ensures t.Counter(i)[13 := 0][14 := 0][15 := 0] == t.Rfc().CounterBlock(0)
  {
    assert Be3(0) == [0, 0, 0];
  }

  // -------- the start of a transfer, byte by byte --------

  // The CCM counter that WriteCnt builds from the IV register.
  function StartCounter(iv: Block): Block { [0x02] + iv[4..] + [0, 0, 1] }

  // The first authenticated block, with the length in bytes spread over three bytes. The flags'
  // bits are disjoint, so combining them is adding them.
  function StartMacBlock(iv: Block, maclen: nat, adata: bool, blocks: nat): Block
    requires 1 <= maclen < 8
  {
    var flags: Byte := 0x02 + maclen * 8 + if adata then 0x40 else 0;
    [flags] + iv[4..] + [ByteOf(blocks / 0x1000, 0), ByteOf(blocks / 0x10, 0), ByteOf(blocks * 0x10, 0)]
  }

  /** What is started is CCM with counter 1 and the transfer's length. */
  lemma StartIsCcm(t: Transfer)
    requires t.Valid() && t.mode < 2
    ensures StartCounter(t.iv) == t.Counter(0)
    ensures var maclen := if t.macField < 1 then 1 else t.macField;
      StartMacBlock(t.iv, maclen, t.extra > 0, t.blocks) == t.Rfc().FirstBlock(t.extra > 0, 16 * t.blocks)
  {
    hide ByteOf, Be3;
    var maclen := if t.macField < 1 then 1 else t.macField;
    assert (t.TagLength() - 2) / 2 == maclen;
    SmallByte(2);
    SmallByte((if t.extra > 0 then 64 else 0) + 8 * maclen + 2);
    CounterOne();
    LengthBytes(t.blocks);
  }

  lemma SmallByte(b: Byte)
    ensures ByteOf(b, 0) == b
  {
  }

  lemma CounterOne()
    ensures Be3(1) == [0, 0, 1]
  {
    assert 1 / 0x100 == 0 && 1 / 0x1_0000 == 0;
  }

  lemma LengthBytes(blocks: nat)
    ensures Be3(16 * blocks) == [ByteOf(blocks / 0x1000, 0), ByteOf(blocks / 0x10, 0), ByteOf(blocks * 0x10, 0)]
  {
    assert 16 * blocks / 0x1_0000 == blocks / 0x1000 && 16 * blocks / 0x100 == blocks / 0x10;
  }

  // -------- transfers and RFC 3610 --------

  // The texts of all blocks: first the extra ones, which hold the encoded additional data, then
  // the message.
  function Texts(t: Transfer, cipher: Cipher, fed: seq<Block>): (texts: seq<Block>)
    requires t.Valid()
    ensures |texts| == |fed|
  {
    seq(|fed|, i requires 0 <= i < |fed| => t.Text(cipher, fed, i))
  }

  lemma {:induction false} MacOfIsCbcMac(t: Transfer, cipher: Cipher, fed: seq<Block>)
    requires t.Valid() && t.mode < 2
    ensures t.MacOf(cipher, fed) ==
      CbcMac(cipher, t.key, [t.Rfc().FirstBlock(t.extra > 0, 16 * t.blocks)] + Texts(t, cipher, fed))
    decreases |fed|
  {
    var first := t.Rfc().FirstBlock(t.extra > 0, 16 * t.blocks);
    var chain := [first] + Texts(t, cipher, fed);
    if |fed| > 0 {
      var front := fed[..|fed| - 1];
      MacOfIsCbcMac(t, cipher, front);
      assert chain[..|fed|] == [first] + Texts(t, cipher, front);
    } else {
      assert chain == [first];
    }
  }

  // The words of some blocks, in software's byte order.
  function Raw(blocks: seq<Block>): (words: seq<Word>)
    ensures |words| == 4 * |blocks|
  {
    if blocks == [] then [] else Raw(blocks[..|blocks| - 1]) + Split(blocks[|blocks| - 1])
  }

  function Reversed(blocks: seq<Block>): (reversed: seq<Block>)
    ensures |reversed| == |blocks|
  {
    seq(|blocks|, i requires 0 <= i < |blocks| => Rev(blocks[i]))
  }

  function Payloads(t: Transfer, cipher: Cipher, fed: seq<Block>): (payloads: seq<Block>)
    requires t.Valid() && t.extra <= |fed|
    ensures |payloads| == |fed| - t.extra
  {
    seq<Block>(|fed| - t.extra, i requires 0 <= i < |fed| - t.extra => t.Payload(cipher, fed, t.extra + i))
  }

  lemma PayloadsOfFront(t: Transfer, cipher: Cipher, fed: seq<Block>)
    requires t.Valid() && t.extra < |fed|
    ensures var n := |fed| - 1;
      Reversed(Payloads(t, cipher, fed)) == Reversed(Payloads(t, cipher, fed[..n])) + [Rev(t.Payload(cipher, fed, n))]
  {
    hide Rev, Xor, Transfer.Counter;
    var n := |fed| - 1;
    forall i | t.extra <= i < n ensures t.Payload(cipher, fed[..n], i) == t.Payload(cipher, fed, i) {
    }
  }

  // With CCM the payload is the RFC's encryption of what is fed.
  lemma PayloadsAreCrypt(t: Transfer, cipher: Cipher, fed: seq<Block>)
    requires t.Valid() && t.mode < 2 && t.extra <= |fed|
    ensures Payloads(t, cipher, fed) == t.Rfc().Crypt(cipher, Reversed(fed)[t.extra..])
  {
    hide Rev, Xor;
    var given := Reversed(fed)[t.extra..];
    forall i | 0 <= i < |fed| - t.extra ensures Payloads(t, cipher, fed)[i] == t.Rfc().Crypt(cipher, given)[i] {
      assert given[i] == Rev(fed[t.extra + i]);
    }
  }

  lemma TextsOfEncryption(t: Transfer, cipher: Cipher, fed: seq<Block>)
    requires t.Valid() && t.mode == 1
    ensures Texts(t, cipher, fed) == Reversed(fed)
  {
    hide Rev, Xor;
  }

  lemma TextsOfDecryption(t: Transfer, cipher: Cipher, fed: seq<Block>)
    requires t.Valid() && t.mode == 0 && t.extra <= |fed|
    ensures Texts(t, cipher, fed)[..t.extra] == Reversed(fed)[..t.extra]
    ensures Texts(t, cipher, fed)[t.extra..] == Payloads(t, cipher, fed)
  {
    hide Rev, Xor;
  }

  lemma {:induction false} OutOfIsRaw(t: Transfer, cipher: Cipher, fed: seq<Block>)
    requires t.Valid() && t.extra <= |fed|
    ensures t.OutOf(cipher, fed) == Raw(Reversed(Payloads(t, cipher, fed)))
    decreases |fed|
  {
    hide Rev, Split, Transfer.Payload;
    if |fed| > t.extra {
      var front := fed[..|fed| - 1];
      OutOfIsRaw(t, cipher, front);
      PayloadsOfFront(t, cipher, fed);
      var all, last := Reversed(Payloads(t, cipher, fed)), Rev(t.Payload(cipher, fed, |fed| - 1));
      assert all[..|all| - 1] == Reversed(Payloads(t, cipher, front)) && all[|all| - 1] == last;
    }
  }

  // The tag of RFC 3610 as 16 bytes.
  predicate IsPaddedTag(padded: Block, tag: seq<Byte>) {
    |tag| <= 16 && padded[..|tag|] == tag && forall i | |tag| <= i < 16 :: padded[i] == 0
  }

  lemma TagOfIsRfc(t: Transfer, cipher: Cipher, fed: seq<Block>)
    requires t.Valid() && t.mode < 2 && |fed| == t.extra + t.blocks
    ensures var texts := Texts(t, cipher, fed);
      IsPaddedTag(t.TagOf(cipher, fed), t.Rfc().Tag(cipher, texts[..t.extra], texts[t.extra..]))
  {
    hide Texts, Xor, CbcMac, Transfer.MacOf, Ccm.FirstBlock, Ccm.KeyStream;
    var texts := Texts(t, cipher, fed);
    var aad, message := texts[..t.extra], texts[t.extra..];
    var first := t.Rfc().FirstBlock(t.extra > 0, 16 * t.blocks);
    MacOfIsCbcMac(t, cipher, fed);
    assert (aad != []) == (t.extra > 0) && |message| == t.blocks;
    assert [first] + aad + message == [first] + texts;
    assert t.TagOf(cipher, fed) == Pad(t.Rfc().Authenticate(cipher, aad, message), t.TagLength());
  }

  /** An encryption outputs the ciphertext of RFC 3610 followed by its padded tag. */
  lemma EncryptsAsRfc(t: Transfer, cipher: Cipher, fed: seq<Block>)
    requires t.Valid() && t.mode == 1 && |fed| == t.extra + t.blocks
    ensures var plain := Reversed(fed);
      var (crypted, tag) := t.Rfc().Encrypt(cipher, plain[..t.extra], plain[t.extra..]);
      t.Output(cipher, fed) == Raw(Reversed(crypted)) + Split(Rev(t.TagOf(cipher, fed)))
      && IsPaddedTag(t.TagOf(cipher, fed), tag)
  {
    hide Rev, Split, Transfer.TagOf, Transfer.OutOf, Raw, Texts, Payloads, Reversed, Ccm.Crypt, Ccm.Tag;
    TextsOfEncryption(t, cipher, fed);
    TagOfIsRfc(t, cipher, fed);
    OutOfIsRaw(t, cipher, fed);
    PayloadsAreCrypt(t, cipher, fed);
  }

  /** A decryption outputs the message of RFC 3610, and its tag is the expected one. */
  lemma DecryptsAsRfc(t: Transfer, cipher: Cipher, fed: seq<Block>)
    requires t.Valid() && t.mode == 0 && |fed| == t.extra + t.blocks
    ensures var given := Reversed(fed);
      var message := t.Rfc().Crypt(cipher, given[t.extra..]);
      t.Output(cipher, fed) == Raw(Reversed(message))
      && IsPaddedTag(t.TagOf(cipher, fed), t.Rfc().Tag(cipher, given[..t.extra], message))
  {
    hide Rev, Split, Transfer.TagOf, Transfer.OutOf, Raw, Texts, Payloads, Reversed, Ccm.Crypt, Ccm.Tag;
    TextsOfDecryption(t, cipher, fed);
    TagOfIsRfc(t, cipher, fed);
    OutOfIsRaw(t, cipher, fed);
    PayloadsAreCrypt(t, cipher, fed);
  }

  // -------- there and back --------

  // What a decryption is fed to undo an encryption: its extra blocks, then its output.
  function Returned(t: Transfer, cipher: Cipher, fed: seq<Block>): (back: seq<Block>)
    requires t.Valid() && t.extra <= |fed|
    ensures |back| == |fed|
  {
    fed[..t.extra] + Reversed(Payloads(t, cipher, fed))
  }

  /** Feeding an encryption's output back decrypts to its input, with the same tag. */
  lemma RoundTrip(t: Transfer, cipher: Cipher, fed: seq<Block>)
    requires t.Valid() && t.mode == 1 && |fed| == t.extra + t.blocks
    ensures var d, back := t.(mode := 0), Returned(t, cipher, fed);
      d.Output(cipher, back) == Raw(fed[t.extra..]) && d.TagOf(cipher, back) == t.TagOf(cipher, fed)
  {
    hide Transfer.TagOf, Transfer.OutOf, Transfer.MacOf, Raw;
    var d, back := t.(mode := 0), Returned(t, cipher, fed);
    ReturnedTexts(t, cipher, fed);
    SameTextsSameTag(t, d, cipher, fed, back);
    OutOfIsRaw(d, cipher, back);
  }

  // The returned blocks decrypt to the original ones.
  lemma ReturnedTexts(t: Transfer, cipher: Cipher, fed: seq<Block>)
    requires t.Valid() && t.mode == 1 && t.extra <= |fed|
    ensures var d, back := t.(mode := 0), Returned(t, cipher, fed);
      Texts(d, cipher, back) == Texts(t, cipher, fed) && Reversed(Payloads(d, cipher, back)) == fed[t.extra..]
  {
    hide Rev, Xor;
    var d, back := t.(mode := 0), Returned(t, cipher, fed);
    forall i | t.extra <= i < |fed| ensures d.Payload(cipher, back, i) == Rev(fed[i]) && Rev(Rev(fed[i])) == fed[i] {
      assert back[i] == Rev(t.Payload(cipher, fed, i));
      RevRev(t.Payload(cipher, fed, i));
      RevRev(fed[i]);
      XorTwice(Rev(fed[i]), cipher(t.key, t.Counter(i - t.extra)));
    }
  }

  lemma SameTextsSameTag(t: Transfer, d: Transfer, cipher: Cipher, fed: seq<Block>, back: seq<Block>)
    requires t.Valid() && t.mode < 2 && d.Valid() && d == t.(mode := d.mode) && d.mode < 2
    requires Texts(d, cipher, back) == Texts(t, cipher, fed)
    ensures d.TagOf(cipher, back) == t.TagOf(cipher, fed)
  {
    hide Texts, Xor, Pad, CbcMac;
    assert d.Rfc() == t.Rfc();
    MacOfIsCbcMac(t, cipher, fed);
    MacOfIsCbcMac(d, cipher, back);
  }

  lemma {:induction false} BlocksOfRaw(blocks: seq<Block>, rest: seq<Word>)
    ensures BlocksOf(Raw(blocks) + rest, |blocks|) == blocks
    decreases |blocks|
  {
    hide Join, Split;
    var n := |blocks|;
    if n > 0 {
      var words := Split(blocks[n - 1]) + rest;
      BlocksOfRaw(blocks[..n - 1], words);
      assert blocks == blocks[..n - 1] + [blocks[n - 1]];
      assert Raw(blocks) + rest == Raw(blocks[..n - 1]) + words;
      BlocksOfMore(Raw(blocks) + rest, n - 1);
      assert (Raw(blocks) + rest)[4 * (n - 1)..4 * (n - 1) + 4] == Split(blocks[n - 1]);
      JoinSplit(blocks[n - 1]);
    }
  }

  lemma {:induction false} RawConcat(a: seq<Block>, b: seq<Block>)
    ensures Raw(a + b) == Raw(a) + Raw(b)
    decreases |b|
  {
    if b == [] {
      assert a + b == a;
    } else {
      RawConcat(a, b[..|b| - 1]);
      assert (a + b)[..|a + b| - 1] == a + b[..|b| - 1];
    }
  }

  /** In words: the extra blocks and an encryption's output are just what a decryption reads. */
  lemma ReturnedWords(t: Transfer, cipher: Cipher, fed: seq<Block>)
    requires t.Valid() && t.mode == 1 && |fed| == t.extra + t.blocks
    ensures var words := Raw(fed[..t.extra]) + t.Output(cipher, fed);
      |words| == 4 * |fed| + 4 && BlocksOf(words, |fed|) == Returned(t, cipher, fed)
      && Join(words[4 * |fed|..]) == Rev(t.TagOf(cipher, fed))
  {
    var payload, tag := Reversed(Payloads(t, cipher, fed)), Split(Rev(t.TagOf(cipher, fed)));
    OutOfIsRaw(t, cipher, fed);
    RawConcat(fed[..t.extra], payload);
    var words := Raw(fed[..t.extra]) + t.Output(cipher, fed);
    assert words == Raw(Returned(t, cipher, fed)) + tag;
    BlocksOfRaw(Returned(t, cipher, fed), tag);
    JoinSplit(Rev(t.TagOf(cipher, fed)));
    assert words[4 * |fed|..] == tag;
  }
}
