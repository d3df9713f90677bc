/**
  The keys of the DSi's AES engine (src/DSi_AES.cpp): the normal key is derived from the keys X and
  Y, byte by byte. Read as 128-bit numbers, lowest byte first, this is a xor, an addition and a
  rotation to the left.
*/
module KeyDerivation {
  import opened Bits

  const KEY_SIZE: nat := 16

  // -------- numbers of bytes --------

  function Value(s: seq<Byte>): nat {
    if |s| == 0 then 0 else s[0] + 0x100 * Value(s[1..])
  }

  function Bytes(n: nat): nat { Pow2(8 * n) }

  lemma BytesStep(n: nat)
    ensures Bytes(n + 1) == 0x100 * Bytes(n) && Bytes(0) == 1
  {
    Pow2Split(8, 8 * n);
    WordSizes();
  }

  lemma {:induction false} ValueConcat(a: seq<Byte>, b: seq<Byte>)
    ensures Value(a + b) == Value(a) + Bytes(|a|) * Value(b)
  {
    if |a| == 0 {
      assert a + b == b;
      BytesStep(0);
    } else {
      assert (a + b)[1..] == a[1..] + b;
      ValueConcat(a[1..], b);
      BytesStep(|a| - 1);
      assert 0x100 * (Bytes(|a| - 1) * Value(b)) == 0x100 * Bytes(|a| - 1) * Value(b);
    }
  }

  lemma ValueNext(s: seq<Byte>, i: nat)
    requires i < |s|
    ensures Value(s[..i + 1]) == Value(s[..i]) + Bytes(i) * s[i]
  {
    assert s[..i + 1] == s[..i] + [s[i]];
    ValueConcat(s[..i], [s[i]]);
    assert Value([s[i]]) == s[i] + 0x100 * Value([]);
  }

  lemma {:induction false} ValueBound(s: seq<Byte>)
    ensures Value(s) < Bytes(|s|)
  {
    if |s| == 0 {
      BytesStep(0);
    } else {
      ValueBound(s[1..]);
      BytesStep(|s| - 1);
    }
  }

  // -------- rotation --------

  function Digits(high: nat, n: nat, low: nat): nat { high * n + low }

  /** The n upper bits of a 128-bit number become the lower ones. */
  function RotateLeft(x: nat, n: nat): nat
    requires n <= 128
  {
    Swapped(x, Pow2(128 - n), Pow2(n))
  }

  // What is below a place goes up by m, and what is above comes down.
  function Swapped(x: nat, place: nat, m: nat): nat
    requires place > 0
  {
    Digits(x % place, m, x / place)
  }

  // Splitting a number at the place determines its rotation.
  lemma RotateSplit(x: nat, n: nat, high: nat, low: nat)
    requires n <= 128 && x == Digits(high, Pow2(128 - n), low) && low < Pow2(128 - n)
    ensures RotateLeft(x, n) == Digits(low, Pow2(n), high)
  {
    Quotient(x, Pow2(128 - n), high, low);
  }

  /** Rotations add up. */
  lemma RotateTwice(x: nat, a: nat, b: nat)
    requires a + b <= 128 && x < Pow2(128)
    ensures RotateLeft(RotateLeft(x, a), b) == RotateLeft(x, a + b)
  {
    hide RotateLeft, Digits, Pow2;
    var n := a + b;
    var pn, pa, pb := Pow2(128 - n), Pow2(a), Pow2(b);
    var high, low := Divided(x, pn);
    var h1, g := Divided(high, pb);
    Pow2Split(128 - n, b);
    Pow2Split(128 - n, a);
    Pow2Split(a, b);
    Pow2Split(128 - a, a);
    assert 128 - n + b == 128 - a && 128 - n + a == 128 - b;
    // x is h1, g and low; its rotation by a is g, low and h1; that by n is low, h1 and g.
    Regroup(h1, pb, g, pn, low);
    Below(g, pb, low, pn);
    RotateSplit(x, a, h1, Digits(g, pn, low));
    Regroup(g, pn, low, pa, h1);
    TopBelow(x, h1, Pow2(128 - a), Digits(g, pn, low), pa);
    Below(low, pn, h1, pa);
    RotateSplit(RotateLeft(x, a), b, g, Digits(low, pa, h1));
    Regroup(low, pa, h1, pb, g);
    RotateSplit(x, n, high, low);
  }

  lemma Divided(x: nat, d: nat) returns (q: nat, r: nat)
    requires d > 0
    ensures x == Digits(q, d, r) && r < d
  {
    q, r := x / d, x % d;
  }

  // Three digits, taken together in either way.
  lemma Regroup(a: nat, m: nat, b: nat, n: nat, c: nat)
    ensures Digits(Digits(a, m, b), n, c) == Digits(a, m * n, Digits(b, n, c)) == Digits(a, n * m, Digits(b, n, c))
  {
    assert (a * m + b) * n == a * (m * n) + b * n;
  }

  // A number of two digits.
  lemma Below(high: nat, m: nat, low: nat, n: nat)
    requires high < m && low < n
    ensures Digits(high, n, low) < n * m && Digits(high, n, low) < m * n
  {
    MulKeepsOrder(high + 1, m, n);
    assert (high + 1) * n == high * n + n;
  }

  lemma TopBelow(x: nat, high: nat, d: nat, low: nat, m: nat)
    requires x == Digits(high, d, low) && x < d * m
    ensures high < m
  {
    MulKeepsOrder(m, high, d);
  }

  // -------- rotating bytes --------

  // Rotating by whole bytes.
  lemma RotateBytes(s: seq<Byte>, c: nat)
    requires |s| == KEY_SIZE && c <= KEY_SIZE
    ensures Value(s[KEY_SIZE - c..] + s[..KEY_SIZE - c]) == RotateLeft(Value(s), 8 * c)
  {
    hide RotateLeft, Pow2, Value;
    var high, low := s[KEY_SIZE - c..], s[..KEY_SIZE - c];
    assert s == low + high;
    ValueConcat(low, high);
    ValueConcat(high, low);
    ValueBound(low);
    assert 128 - 8 * c == 8 * (KEY_SIZE - c);
    RotateSplit(Value(s), 8 * c, Value(high), Value(low));
  }

  // The bits that leave a byte when it is shifted by f, and those that stay.
  function Leaving(t: Byte, f: nat): nat
    requires f < 8
  {
    hide Pow2;
    t / Pow2(8 - f)
  }

  function Staying(t: Byte, f: nat): nat
    requires f < 8
  {
    hide Pow2;
    t % Pow2(8 - f)
  }

  lemma Parted(t: Byte, f: nat)
    requires f < 8
    ensures t == Digits(Leaving(t, f), Pow2(8 - f), Staying(t, f)) && Staying(t, f) < Pow2(8 - f)
  {
    hide Pow2;
  }

  lemma PartsShifted(t: Byte, h: nat, p: nat, l: nat, q: nat)
    requires t == Digits(h, p, l) && l < p && p * q == 0x100
    ensures h < q && t * q == 0x100 * h + l * q && l * q + q <= 0x100
  {
    TopBelow(t, h, p, l, q);
    assert t * q == h * (p * q) + l * q by {
      Distribute(h, p, l, q);
    }
    MulKeepsOrder(l + 1, p, q);
    assert (l + 1) * q == l * q + q;
  }

  lemma Distribute(a: nat, b: nat, c: nat, d: nat)
    ensures Digits(a, b, c) * d == a * (b * d) + c * d
  {
    assert (a * b + c) * d == a * (b * d) + c * d;
  }

  lemma ByteParts(t: Byte, f: nat)
    requires f < 8
    ensures Leaving(t, f) < Pow2(f) && t * Pow2(f) == 0x100 * Leaving(t, f) + Staying(t, f) * Pow2(f)
    ensures Staying(t, f) * Pow2(f) + Pow2(f) <= 0x100
  {
    hide *;
    Parted(t, f);
    Pow2Split(8 - f, f);
    WordSizes();
    PartsShifted(t, Leaving(t, f), Pow2(8 - f), Staying(t, f), Pow2(f));
  }

  // Shifted by f, a byte keeps what stays.
  lemma ShiftedByte(t: Byte, f: nat)
    requires f < 8
    ensures t * Pow2(f) % 0x100 == Staying(t, f) * Pow2(f)
  {
    hide *;
    ByteParts(t, f);
    Quotient(t * Pow2(f), 0x100, Leaving(t, f), Staying(t, f) * Pow2(f));
  }

  // -------- bits of two parts --------

  lemma HalfDigits(x: nat, k: nat, a: nat)
    requires k > 0
    ensures Digits(x, Pow2(k), a) / 2 == Digits(x, Pow2(k - 1), a / 2) && Digits(x, Pow2(k), a) % 2 == a % 2
  {
    assert x * Pow2(k) == 2 * (x * Pow2(k - 1));
  }

  lemma DoubleDigits(x: nat, k: nat, bit: nat, a: nat)
    requires k > 0
    ensures Digits(x, Pow2(k), bit + 2 * a) == bit + 2 * Digits(x, Pow2(k - 1), a)
  {
    assert x * Pow2(k) == 2 * (x * Pow2(k - 1));
  }

  lemma PowZero()
    ensures Pow2(0) == 1 && forall x: nat, a: nat :: Digits(x, 1, a) == x + a
  {
  }

  lemma PowHalf(n: nat)
    requires n > 0
    ensures Pow2(n) == 2 * Pow2(n - 1)
  {
  }

  lemma OrUnfold(a: nat, b: nat, n: nat)
    requires n > 0
    ensures OrBits(a, b, n) == (if a % 2 + b % 2 > 0 then 1 else 0) + 2 * OrBits(a / 2, b / 2, n - 1)
  {
  }

  // Bits at different places are put together by adding.
  lemma {:induction false} OrAdds(a: nat, b: nat, f: nat, n: nat)
    requires b < Pow2(f) && f <= n && Digits(a, Pow2(f), b) < Pow2(n)
    ensures OrBits(Digits(a, Pow2(f), 0), b, n) == Digits(a, Pow2(f), b)
  {
    hide OrBits, Pow2, Digits;
    PowZero();
    if f == 0 {
      OrZero(a, n);
    } else {
      HalfDigits(a, f, b);
      HalfDigits(a, f, 0);
      PowHalf(f);
      PowHalf(n);
      OrAdds(a, b / 2, f - 1, n - 1);
      OrUnfold(Digits(a, Pow2(f), 0), b, n);
    }
  }

  lemma {:induction false} OrZero(a: nat, n: nat)
    requires a < Pow2(n)
    ensures OrBits(a, 0, n) == a
  {
    if n > 0 {
      OrZero(a / 2, n - 1);
    }
  }

  function FineByte(t: Byte, below: Byte, f: nat): (r: nat)
    requires f < 8
    ensures r < 0x100
  {
    hide Pow2;
    WordSizes();
    OrBits(t * Pow2(f) % 0x100, Leaving(below, f), 8)
  }

  lemma FineByteIs(t: Byte, below: Byte, f: nat)
    requires f < 8
    ensures FineByte(t, below, f) == Staying(t, f) * Pow2(f) + Leaving(below, f)
  {
    hide OrBits, Pow2, Leaving, Staying;
    ByteParts(t, f);
    ByteParts(below, f);
    ShiftedByte(t, f);
    WordSizes();
    OrAdds(Staying(t, f), Leaving(below, f), f, 8);
    assert Digits(Staying(t, f), Pow2(f), 0) == Staying(t, f) * Pow2(f);
  }

  // The first i bytes of t have been shifted, with `carry` shifted in below.
  ghost predicate Shifted(t: seq<Byte>, out: seq<Byte>, i: nat, f: nat, carry: nat, leaving: nat)
    requires i <= |t|
  {
    Value(out) + Bytes(i) * leaving == Pow2(f) * Value(t[..i]) + carry
  }

  lemma ShiftStep(t: seq<Byte>, out: seq<Byte>, i: nat, f: nat, carry: nat, below: Byte)
    requires i < |t| && |out| == i && f < 8 && Shifted(t, out, i, f, carry, Leaving(below, f))
    ensures Shifted(t, out + [FineByte(t[i], below, f)], i + 1, f, carry, Leaving(t[i], f))
  {
    hide Pow2, Bytes, Leaving, Staying, Value, FineByte;
    var b := FineByte(t[i], below, f);
    FineByteIs(t[i], below, f);
    ByteParts(t[i], f);
    ValueNext(t, i);
    ValueConcat(out, [b]);
    OneByte(b);
    BytesStep(i);
    ShiftSums(Value(out), Value(t[..i]), Bytes(i), Pow2(f), t[i], Leaving(t[i], f), Staying(t[i], f), Leaving(below, f), carry);
  }

  lemma OneByte(b: Byte)
    ensures Value([b]) == b
  {
    assert Value([b]) == b + 0x100 * Value([]);
  }

  lemma ShiftSums(out: nat, v: nat, w: nat, p: nat, t: nat, high: nat, low: nat, below: nat, carry: nat)
    requires out + w * below == p * v + carry && t * p == 0x100 * high + low * p
    ensures out + w * (low * p + below) + 0x100 * w * high == p * (v + w * t) + carry
  {
    assert w * (low * p + below) == w * (low * p) + w * below;
    assert 0x100 * w * high == w * (0x100 * high);
    assert w * (t * p) == w * (0x100 * high) + w * (low * p);
    assert p * (v + w * t) == p * v + w * (t * p);
  }

  // When all bytes have been shifted and what left the last one came in below, the number is rotated.
  lemma RotateBits(t: seq<Byte>, out: seq<Byte>, f: nat)
    requires |t| == KEY_SIZE && f < 8
    requires Shifted(t, out, KEY_SIZE, f, Leaving(t[KEY_SIZE - 1], f), Leaving(t[KEY_SIZE - 1], f))
    ensures Value(out) == RotateLeft(Value(t), f)
  {
    hide Pow2, Bytes, Leaving, Staying, Value, RotateLeft, Digits;
    var last := KEY_SIZE - 1;
    var top, rest := Leaving(t[last], f), Staying(t[last], f);
    Parted(t[last], f);
    ValueNext(t, last);
    assert t[..KEY_SIZE] == t;
    ValueBound(t[..last]);
    BytesArePowers();
    Pow2Split(8 - f, 120);
    Pow2Split(f, 128 - f);
    assert 8 - f + 120 == 128 - f;
    var low := Digits(rest, Pow2(120), Value(t[..last]));
    Below(rest, Pow2(8 - f), Value(t[..last]), Pow2(120));
    LastByte(Value(t[..last]), Pow2(120), t[last], top, Pow2(8 - f), rest);
    RotateSplit(Value(t), f, top, low);
    TakeCarry(Value(out), top, Pow2(128 - f), low, Pow2(f));
  }

  lemma BytesArePowers()
    ensures Bytes(KEY_SIZE) == Pow2(128) && Bytes(KEY_SIZE - 1) == Pow2(120)
  {
    hide Pow2;
  }

  lemma LastByte(v: nat, w: nat, t: nat, top: nat, p: nat, rest: nat)
    requires t == Digits(top, p, rest)
    ensures v + w * t == Digits(top, p * w, Digits(rest, w, v))
  {
    Regroup(top, p, rest, w, v);
    assert v + w * t == Digits(t, w, v);
  }

  lemma TakeCarry(out: nat, top: nat, place: nat, low: nat, p: nat)
    requires out + p * place * top == p * Digits(top, place, low) + top
    ensures out == Digits(low, p, top)
  {
    assert p * (top * place + low) == p * place * top + low * p;
  }

  // The bytes, moved up by a number of places.
  method MoveBytes(val: array<Byte>, coarse: nat) returns (tmp: array<Byte>)
    requires val.Length == KEY_SIZE
    ensures fresh(tmp) && tmp.Length == KEY_SIZE
    ensures Value(tmp[..]) == RotateLeft(Value(val[..]), 8 * (coarse % KEY_SIZE))
  {
    hide Value, RotateLeft;
    ghost var c := coarse % KEY_SIZE;
    tmp := new Byte[KEY_SIZE];
    for i := 0 to KEY_SIZE
      invariant forall k | 0 <= k < i :: tmp[k] == val[if k < c then k + KEY_SIZE - c else k - c]
    {
      Backwards(i, coarse);
      tmp[i] := val[(i - coarse) % KEY_SIZE];
    }
    assert tmp[..] == val[..][KEY_SIZE - c..] + val[..][..KEY_SIZE - c];
    RotateBytes(val[..], c);
  }

  lemma Backwards(i: nat, coarse: nat)
    requires i < KEY_SIZE
    ensures var c := coarse % KEY_SIZE; (i - coarse) % KEY_SIZE == if i < c then i + KEY_SIZE - c else i - c
  {
  }

  // The bytes, with their bits moved up by less than a byte.
  method MoveBits(val: array<Byte>, tmp: array<Byte>, fine: nat)
    requires val.Length == KEY_SIZE && tmp.Length == KEY_SIZE && tmp != val && fine < 8
    modifies val
    ensures Value(val[..]) == RotateLeft(Value(tmp[..]), fine)
  {
    hide Value, RotateLeft, Leaving, FineByte, Shifted;
    ghost var t := tmp[..];
    ghost var carry := Leaving(t[KEY_SIZE - 1], fine);
    NothingShifted(t, fine, carry);
    for i := 0 to KEY_SIZE
      invariant tmp[..] == t
      invariant Shifted(t, val[..i], i, fine, carry, Leaving(t[if i == 0 then KEY_SIZE - 1 else i - 1], fine))
    {
      var below := tmp[(i - 1) % KEY_SIZE];
      assert below == t[if i == 0 then KEY_SIZE - 1 else i - 1];
      ShiftStep(t, val[..i], i, fine, carry, below);
      val[i] := FineByte(tmp[i], below, fine);
      assert val[..i + 1] == val[..i] + [FineByte(t[i], below, fine)];
    }
    assert val[..KEY_SIZE] == val[..];
    RotateBits(t, val[..], fine);
  }

  /** Rotates a key in place, by any number of bits. */
  method Rol16(val: array<Byte>, n: nat)
    requires val.Length == KEY_SIZE
    modifies val
    ensures Value(val[..]) == RotateLeft(Value(old(val[..])), n % 128)
  {
    hide Value, RotateLeft, Pow2, Bytes;
    var tmp := MoveBytes(val, n / 8);
    ValueBound(val[..]);
    BytesArePowers();
    RotateTwice(Value(val[..]), 8 * (n / 8 % KEY_SIZE), n % 8);
    assert 8 * (n / 8 % KEY_SIZE) + n % 8 == n % 128;
    MoveBits(val, tmp, n % 8);
  }

  lemma NothingShifted(t: seq<Byte>, f: nat, carry: nat)
    ensures Shifted(t, [], 0, f, carry, carry)
  {
    BytesStep(0);
  }

  // -------- deriving a key --------

  // Highest byte first.
  function KeyConst(): (k: seq<Byte>)
    ensures |k| == KEY_SIZE
  {
    [0xFF, 0xFE, 0xFB, 0x4E] + [0x29, 0x59, 0x02, 0x58] + [0x2A, 0x68, 0x0F, 0x5F] + [0x1A, 0x4F, 0x3E, 0x79]
  }

  const KEY_NUMBER: nat := 0xFFFEFB4E295902582A680F5F1A4F3E79

  // The bytes of the constant from the lowest on.
  function LowestFirst(): (k: seq<Byte>)
    ensures |k| == KEY_SIZE
  {
    seq(KEY_SIZE, (i: nat) requires i < KEY_SIZE => KeyConst()[KEY_SIZE - 1 - i])
  }

  lemma {:induction false} XorParts(a: nat, b: nat, k: nat, x: nat, y: nat, n: nat)
    requires a < Pow2(k) && b < Pow2(k)
    ensures XorBits(Digits(x, Pow2(k), a), Digits(y, Pow2(k), b), k + n) == Digits(XorBits(x, y, n), Pow2(k), XorBits(a, b, k))
  {
    hide XorBits, Pow2, Digits;
    if k == 0 {
      PowZero();
      XorEmpty(a, b);
    } else {
      HalfDigits(x, k, a);
      HalfDigits(y, k, b);
      PowHalf(k);
      XorParts(a / 2, b / 2, k - 1, x, y, n);
      XorUnfold(Digits(x, Pow2(k), a), Digits(y, Pow2(k), b), k + n);
      XorUnfold(a, b, k);
      DoubleDigits(XorBits(x, y, n), k, (a % 2 + b % 2) % 2, XorBits(a / 2, b / 2, k - 1));
    }
  }

  lemma XorEmpty(a: nat, b: nat)
    ensures XorBits(a, b, 0) == 0
  {
  }

  lemma XorUnfold(a: nat, b: nat, n: nat)
    requires n > 0
    ensures XorBits(a, b, n) == (a % 2 + b % 2) % 2 + 2 * XorBits(a / 2, b / 2, n - 1)
  {
  }

  lemma ValueDigits(s: seq<Byte>, i: nat)
    requires i < |s|
    ensures Value(s[..i + 1]) == Digits(s[i], Pow2(8 * i), Value(s[..i]))
  {
    ValueNext(s, i);
  }

  // The bytewise xor of two numbers, one byte further.
  lemma XorNext(x: seq<Byte>, y: seq<Byte>, i: nat)
    requires i < |x| && i < |y|
    ensures XorBits(Value(x[..i + 1]), Value(y[..i + 1]), 8 * (i + 1)) ==
      Digits(XorBits(x[i], y[i], 8), Pow2(8 * i), XorBits(Value(x[..i]), Value(y[..i]), 8 * i))
  {
    hide Value, XorBits, Pow2, Digits;
    ValueDigits(x, i);
    ValueDigits(y, i);
    ValueBound(x[..i]);
    ValueBound(y[..i]);
    XorParts(Value(x[..i]), Value(y[..i]), 8 * i, x[i], y[i], 8);
    assert 8 * i + 8 == 8 * (i + 1);
  }

  method XorKeys(keyX: array<Byte>, keyY: array<Byte>) returns (tmp: array<Byte>)
    requires keyX.Length == KEY_SIZE && keyY.Length == KEY_SIZE
    ensures fresh(tmp) && tmp.Length == KEY_SIZE
    ensures Value(tmp[..]) == XorBits(Value(keyX[..]), Value(keyY[..]), 128)
  {
    hide Value, XorBits, Pow2, Digits;
    tmp := new Byte[KEY_SIZE];
    assert Value([]) == XorBits(Value([]), Value([]), 0) by { NothingXored(); }
    for i := 0 to KEY_SIZE
      invariant Value(tmp[..i]) == XorBits(Value(keyX[..i]), Value(keyY[..i]), 8 * i)
    {
      assert keyX[..][..i] == keyX[..i] && keyX[..][..i + 1] == keyX[..i + 1];
      assert keyY[..][..i] == keyY[..i] && keyY[..][..i + 1] == keyY[..i + 1];
      XorNext(keyX[..], keyY[..], i);
      tmp[i] := XorByte(keyX[i], keyY[i]);
      ValueDigits(tmp[..], i);
      assert tmp[..][..i] == tmp[..i] && tmp[..][..i + 1] == tmp[..i + 1];
    }
    assert tmp[..KEY_SIZE] == tmp[..] && keyX[..KEY_SIZE] == keyX[..] && keyY[..KEY_SIZE] == keyY[..];
  }

  lemma NothingXored()
    ensures Value([]) == XorBits(Value([]), Value([]), 0)
  {
  }

  // Adding byte by byte, with a carry.
  lemma AddNext(s: seq<Byte>, k: seq<Byte>, out: seq<Byte>, i: nat, carry: nat)
    requires i < |s| && i < |k| && |out| == i && carry < 2
    requires Value(out) + Bytes(i) * carry == Value(s[..i]) + Value(k[..i])
    ensures var res: nat := s[i] + k[i] + carry;
      Value(out + [res % 0x100]) + Bytes(i + 1) * (res / 0x100) == Value(s[..i + 1]) + Value(k[..i + 1])
  {
    hide Value, Pow2, Bytes;
    var res: nat := s[i] + k[i] + carry;
    ValueNext(s, i);
    ValueNext(k, i);
    ValueConcat(out, [res % 0x100]);
    OneByte(res % 0x100);
    BytesStep(i);
    CarrySums(Bytes(i), s[i], k[i], carry, res);
  }

  lemma CarrySums(w: nat, a: nat, b: nat, carry: nat, res: nat)
    requires res == a + b + carry
    ensures w * (res % 0x100) + 0x100 * w * (res / 0x100) == w * a + w * b + w * carry
  {
    assert w * (res % 0x100) + w * (0x100 * (res / 0x100)) == w * res;
    assert w * (0x100 * (res / 0x100)) == 0x100 * w * (res / 0x100);
    assert w * res == w * a + w * b + w * carry;
  }

  // Adds the constant, dropping the last carry.
  method AddConstant(tmp: array<Byte>)
    requires tmp.Length == KEY_SIZE
    modifies tmp
    ensures Value(tmp[..]) == (Value(old(tmp[..])) + KEY_NUMBER) % Pow2(128)
  {
    hide Value, Pow2, Bytes;
    ghost var was := tmp[..];
    ghost var k := LowestFirst();
    var carry: nat := 0;
    assert Value([]) + Bytes(0) * 0 == Value([]) + Value([]) by { NothingXored(); }
    for i := 0 to KEY_SIZE
      invariant carry < 2 && tmp[i..] == was[i..]
      invariant Value(tmp[..i]) + Bytes(i) * carry == Value(was[..i]) + Value(k[..i])
    {
      AddNext(was, k, tmp[..i], i, carry);
      assert tmp[i] == tmp[i..][0] == was[i..][0] == was[i];
      var res: nat := tmp[i] + KeyConst()[KEY_SIZE - 1 - i] + carry;
      ghost var before := tmp[..i];
      tmp[i] := res % 0x100;
      carry := res / 0x100;
      assert tmp[..i + 1] == before + [res % 0x100];
    }
    assert tmp[..KEY_SIZE] == tmp[..] && was[..KEY_SIZE] == was && k[..KEY_SIZE] == k;
    ValueBound(tmp[..]);
    BytesArePowers();
    KeyConstIs();
    Quotient(Value(was) + KEY_NUMBER, Pow2(128), carry, Value(tmp[..]));
  }

  lemma FourBytes(a: Byte, b: Byte, c: Byte, d: Byte)
    ensures Value([a, b, c, d]) == a + 0x100 * b + 0x1_0000 * c + 0x100_0000 * d
  {
    OneByte(d);
    assert [c, d] == [c] + [d] && [b, c, d] == [b] + [c, d] && [a, b, c, d] == [a] + [b, c, d];
    Front(c, [d]);
    Front(b, [c, d]);
    Front(a, [b, c, d]);
  }

  lemma Front(b: Byte, s: seq<Byte>)
    ensures Value([b] + s) == b + 0x100 * Value(s)
  {
    assert ([b] + s)[1..] == s;
  }

  lemma AfterWord(a: seq<Byte>, s: seq<Byte>)
    requires |a| == 4
    ensures Value(a + s) == Value(a) + 0x1_0000_0000 * Value(s)
  {
    hide Value;
    ValueConcat(a, s);
    WordSizes();
  }

  lemma KeyConstIs()
    ensures Value(LowestFirst()) == KEY_NUMBER
  {
    hide Value;
    var a, b: seq<Byte>, c: seq<Byte>, d: seq<Byte> := [0x79, 0x3E, 0x4F, 0x1A], [0x5F, 0x0F, 0x68, 0x2A],
      [0x58, 0x02, 0x59, 0x29], [0x4E, 0xFB, 0xFE, 0xFF];
    FourBytes(0x79, 0x3E, 0x4F, 0x1A);
    FourBytes(0x5F, 0x0F, 0x68, 0x2A);
    FourBytes(0x58, 0x02, 0x59, 0x29);
    FourBytes(0x4E, 0xFB, 0xFE, 0xFF);
    var k := LowestFirst();
    assert KeyConst()[15] == k[0] == 0x79;
    assert k[..4] == a;
    assert k[4..8] == b && k[8..12] == c && k[12..] == d;
    assert k == a + k[4..] && k[4..] == b + k[8..] && k[8..] == c + d;
    AfterWord(a, k[4..]);
    AfterWord(b, k[8..]);
    AfterWord(c, d);
  }

  /** The normal key: ((X xor Y) + C) rotated to the left by 42, as 128-bit numbers. */
  method DeriveNormalKey(keyX: array<Byte>, keyY: array<Byte>, normalKey: array<Byte>)
    requires keyX.Length == KEY_SIZE && keyY.Length == KEY_SIZE && normalKey.Length == KEY_SIZE
    modifies normalKey
    ensures Value(normalKey[..]) ==
      RotateLeft((XorBits(Value(old(keyX[..])), Value(old(keyY[..])), 128) + KEY_NUMBER) % Pow2(128), 42)
  {
    hide Value, XorBits, Pow2, RotateLeft;
    var tmp := XorKeys(keyX, keyY);
    AddConstant(tmp);
    Rol16(tmp, 42);
    ghost var rotated := tmp[..];
    for i := 0 to KEY_SIZE
      invariant tmp[..] == rotated && forall k | 0 <= k < i :: normalKey[k] == rotated[k]
    {
      normalKey[i] := tmp[i];
    }
    assert normalKey[..] == rotated;
  }
}
