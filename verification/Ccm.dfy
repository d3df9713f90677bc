/**
  CCM as the DSi's AES engine uses it: RFC 3610, sections 2.2 to 2.5, with a 3-byte length
  field, 12-byte nonces, whole blocks, and an arbitrary block cipher.
*/
module Ccm {
  import opened Bits

  type Block = b: seq<Byte> | |b| == 16 witness seq(16, _ => 0)

  // Encrypts a block under a key.
  type Cipher = (Block, Block) -> Block

  function Xor(a: Block, b: Block): Block {
    seq(16, i requires 0 <= i < 16 => XorByte(a[i], b[i]))
  }

  lemma XorTwice(a: Block, b: Block)
    ensures Xor(Xor(a, b), b) == a
  {
    WordSizes();
    forall i | 0 <= i < 16 ensures Xor(Xor(a, b), b)[i] == a[i] {
      XorBitsTwice(a[i], b[i], 8);
    }
  }

  // The last three bytes of n, most significant first.
  function Be3(n: nat): (b: seq<Byte>)
    ensures |b| == 3
  {
     [ByteOf(n / 0x1_0000, 0), ByteOf(n / 0x100, 0), ByteOf(n, 0)]
  }

  datatype Ccm = Ccm(key: Block, nonce: seq<Byte>, tagLength: nat) {
    predicate Valid() { |nonce| == 12 && 4 <= tagLength <= 16 && tagLength % 2 == 0 }

    // Section 2.2: flags, nonce and message length.
    function FirstBlock(adata: bool, length: nat): Block
      requires Valid()
    {
      [ByteOf((if adata then 64 else 0) + 8 * ((tagLength - 2) / 2) + 2, 0)] + nonce + Be3(length)
    }

    // Section 2.3: flags, nonce and counter.
    function CounterBlock(i: nat): Block
      requires Valid()
    {
      [ByteOf(2, 0)] + nonce + Be3(i)
    }

    function KeyStream(cipher: Cipher, i: nat): Block
      requires Valid()
    {
      cipher(key, CounterBlock(i))
    }

    // Encryption and decryption of a message are the same.
    function Crypt(cipher: Cipher, message: seq<Block>): (crypted: seq<Block>)
      requires Valid()
      ensures |crypted| == |message|
    {
      seq(|message|, i requires 0 <= i < |message| => Xor(message[i], KeyStream(cipher, i + 1)))
    }

    // The encrypted authentication value of section 2.3, before it is truncated.
    function Authenticate(cipher: Cipher, aad: seq<Block>, message: seq<Block>): Block
      requires Valid()
    {
      Xor(CbcMac(cipher, key, [FirstBlock(aad != [], 16 * |message|)] + aad + message), KeyStream(cipher, 0))
    }

    function Tag(cipher: Cipher, aad: seq<Block>, message: seq<Block>): seq<Byte>
      requires Valid()
    {
      Authenticate(cipher, aad, message)[..tagLength]
    }

    function Encrypt(cipher: Cipher, aad: seq<Block>, message: seq<Block>): (seq<Block>, seq<Byte>)
      requires Valid()
    {
      (Crypt(cipher, message), Tag(cipher, aad, message))
    }

    function Decrypt(cipher: Cipher, aad: seq<Block>, crypted: seq<Block>, tag: seq<Byte>): (seq<Block>, bool)
      requires Valid()
    {
      var message := Crypt(cipher, crypted);
      (message, Tag(cipher, aad, message) == tag)
    }
  }

  function CbcMac(cipher: Cipher, key: Block, blocks: seq<Block>): Block
    requires blocks != []
  {
    var last := |blocks| - 1;
    if last == 0 then cipher(key, blocks[0]) else cipher(key, Xor(CbcMac(cipher, key, blocks[..last]), blocks[last]))
  }

  lemma CryptTwice(c: Ccm, cipher: Cipher, message: seq<Block>)
    requires c.Valid()
    ensures c.Crypt(cipher, c.Crypt(cipher, message)) == message
  {
    forall i | 0 <= i < |message| ensures c.Crypt(cipher, c.Crypt(cipher, message))[i] == message[i] {
      XorTwice(message[i], c.KeyStream(cipher, i + 1));
    }
  }

  /** Decryption undoes encryption and accepts its tag. */
  lemma DecryptEncrypt(c: Ccm, cipher: Cipher, aad: seq<Block>, message: seq<Block>)
    requires c.Valid()
    ensures var (crypted, tag) := c.Encrypt(cipher, aad, message);
      c.Decrypt(cipher, aad, crypted, tag) == (message, true)
  {
    CryptTwice(c, cipher, message);
  }

  // -------- counters --------

  // The increment of a 16-byte counter, from byte k upwards.
  function IncFrom(b: Block, k: nat): Block
    requires k < 16
    decreases k
  {
    if b[k] != 0xFF then b[k := b[k] + 1] else if k == 0 then b[0 := 0] else IncFrom(b[k := 0], k - 1)
  }

  function Inc(b: Block): Block { IncFrom(b, 15) }

  function CounterAt(iv: Block, i: nat): Block {
    if i == 0 then iv else Inc(CounterAt(iv, i - 1))
  }

  // A carry goes on while the digit is 0xFF.
  lemma ByteOfCarry(n: nat)
    ensures ByteOf(n, 0) == 0xFF <==> n % 0x100 == 0xFF
    ensures ByteOf(n, 0) != 0xFF ==> ByteOf(n + 1, 0) == ByteOf(n, 0) + 1 && (n + 1) / 0x100 == n / 0x100
    ensures ByteOf(n, 0) == 0xFF ==> ByteOf(n + 1, 0) == 0 && (n + 1) / 0x100 == n / 0x100 + 1
  {
    assert (n + 1) % 0x100 == if n % 0x100 == 0xFF then 0 else n % 0x100 + 1;
  }

  lemma Be3Next(n: nat)
    requires n + 1 < 0x100_0000
    ensures var b, next := Be3(n), Be3(n + 1);
      if b[2] != 0xFF then next == [b[0], b[1], b[2] + 1]
      else if b[1] != 0xFF then next == [b[0], b[1] + 1, 0]
      else b[0] != 0xFF && next == [b[0] + 1, 0, 0]
  {
    ByteOfCarry(n);
    ByteOfCarry(n / 0x100);
    ByteOfCarry(n / 0x1_0000);
    assert n / 0x100 / 0x100 == n / 0x1_0000 && (n + 1) / 0x100 / 0x100 == (n + 1) / 0x1_0000;
    if n % 0x100 == 0xFF && n / 0x100 % 0x100 == 0xFF {
      assert n == n / 0x1_0000 * 0x1_0000 + n / 0x100 % 0x100 * 0x100 + n % 0x100;
      assert n / 0x1_0000 < 0xFF && ByteOf(n / 0x1_0000, 0) == n / 0x1_0000;
    }
  }

  lemma IncCarries(b: Block)
    ensures b[15] != 0xFF ==> Inc(b) == b[15 := b[15] + 1]
    ensures b[15] == 0xFF && b[14] != 0xFF ==> Inc(b) == b[15 := 0][14 := b[14] + 1]
    ensures b[15] == 0xFF && b[14] == 0xFF && b[13] != 0xFF ==> Inc(b) == b[15 := 0][14 := 0][13 := b[13] + 1]
  {
    var c := b[15 := 0];
    var d := c[14 := 0];
    assert Inc(b) == IncFrom(b, 15);
    assert b[15] == 0xFF ==> Inc(b) == IncFrom(c, 14);
    assert b[15] == 0xFF && b[14] == 0xFF ==> Inc(b) == IncFrom(d, 13);
  }

  /** The byte-wise increment counts, as long as the 3-byte counter does not wrap. */
  lemma IncCounts(c: Ccm, i: nat)
    requires c.Valid() && i + 1 < 0x100_0000
    ensures Inc(c.CounterBlock(i)) == c.CounterBlock(i + 1)
  {
    hide Be3, Inc, IncFrom, ByteOf;
    var b, next := c.CounterBlock(i), c.CounterBlock(i + 1);
    assert forall k | 0 <= k < 3 :: b[13 + k] == Be3(i)[k] && next[13 + k] == Be3(i + 1)[k];
    IncCarries(b);
    Be3Next(i);
    if b[15] != 0xFF {
      assert next == b[15 := b[15] + 1];
    } else if b[14] != 0xFF {
      assert next == b[15 := 0][14 := b[14] + 1];
    } else {
      assert next == b[15 := 0][14 := 0][13 := b[13] + 1];
    }
  }
}
