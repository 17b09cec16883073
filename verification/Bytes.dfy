/** Bytes, big-endian numbers and the bitwise operations of header protection. */
module Bytes {

  type byte = x: int | 0 <= x < 256

  /** Consecutive slices join. */
  lemma JoinSlices<T>(s: seq<T>, a: nat, b: nat)
    requires a + b <= |s|
    ensures s[..a] + s[a..][..b] == s[..a + b]
  {
  }

  lemma SliceOfSlice<T>(s: seq<T>, a: nat, b: nat, c: nat, d: nat)
    requires a <= b <= |s| && c <= d <= b - a
    ensures s[a..b][c..d] == s[a + c..a + d]
  {
    var x, y := s[a..b][c..d], s[a + c..a + d];
    assert |x| == |y|;
    forall k | 0 <= k < |x| ensures x[k] == y[k] {
      assert x[k] == s[a..b][c + k];
    }
  }

  lemma AfterPrefix<T>(a: seq<T>, b: seq<T>)
    ensures (a + b)[|a|..] == b
  {
  }

  function U16(hi: byte, lo: byte): nat {
    hi * 0x100 + lo
  }

  function U24(a: byte, b: byte, c: byte): nat {
    a * 0x1_0000 + b * 0x100 + c
  }

  function Write24(n: nat): (s: seq<byte>)
    requires n < 0x100_0000
    ensures |s| == 3 && U24(s[0], s[1], s[2]) == n
  {
    var front := n / 0x100;
    [front / 0x100, front % 0x100, n % 0x100]
  }

  lemma Write24Read(a: byte, b: byte, c: byte)
    ensures U24(a, b, c) < 0x100_0000 && Write24(U24(a, b, c)) == [a, b, c]
  {
    var front := a as int * 0x100 + b;
    assert U24(a, b, c) == front * 0x100 + c;
  }

  function U32(a: byte, b: byte, c: byte, d: byte): nat {
    a * 0x100_0000 + b * 0x1_0000 + c * 0x100 + d
  }

  function Pow256(n: nat): (p: nat)
    ensures p >= 1
  {
    if n == 0 then 1 else 256 * Pow256(n - 1)
  }

  /** The number written big-endian by s. */
  function BigEndian(s: seq<byte>): nat {
    if s == [] then 0 else BigEndian(s[..|s| - 1]) * 256 + s[|s| - 1]
  }

  /** The n-byte big-endian form of v. */
  function ToBigEndian(v: nat, n: nat): (s: seq<byte>)
    requires v < Pow256(n)
    ensures |s| == n
    ensures BigEndian(s) == v
  {
    if n == 0 then []
    else
      assert v / 256 < Pow256(n - 1);
      var front := ToBigEndian(v / 256, n - 1);
      assert (front + [v % 256])[..n - 1] == front;
      front + [v % 256]
  }

  lemma {:induction false} BigEndianBound(s: seq<byte>)
    ensures BigEndian(s) < Pow256(|s|)
  {
    if s != [] {
      BigEndianBound(s[..|s| - 1]);
    }
  }

  /** Big-endian writing is the only inverse of big-endian reading at a given width. */
  lemma {:induction false} BigEndianRoundTrip(s: seq<byte>)
    ensures BigEndian(s) < Pow256(|s|)
    ensures ToBigEndian(BigEndian(s), |s|) == s
  {
    BigEndianBound(s);
    if s != [] {
      var front, last := s[..|s| - 1], s[|s| - 1];
      BigEndianRoundTrip(front);
      assert BigEndian(s) / 256 == BigEndian(front) && BigEndian(s) % 256 == last;
      assert front + [last] == s;
    }
  }

  lemma BigEndian1(s: seq<byte>)
    requires |s| == 1
    ensures BigEndian(s) == s[0]
  {
    assert s[..0] == [];
  }

  lemma BigEndian2(s: seq<byte>)
    requires |s| == 2
    ensures BigEndian(s) == U16(s[0], s[1])
  {
    BigEndian1(s[..1]);
  }

  lemma BigEndian4(s: seq<byte>)
    requires |s| == 4
    ensures BigEndian(s) == U32(s[0], s[1], s[2], s[3])
  {
    assert s[..3][..2] == s[..2];
    BigEndian2(s[..2]);
    assert BigEndian(s[..3]) == U24(s[0], s[1], s[2]);
  }

  lemma BigEndian8(s: seq<byte>)
    requires |s| == 8
    ensures BigEndian(s) == U32(s[0], s[1], s[2], s[3]) * 0x1_0000_0000 + U32(s[4], s[5], s[6], s[7])
  {
    BigEndian4(s[..4]);
    hide U32;
    assert s[..7][..6] == s[..6] && s[..6][..5] == s[..5] && s[..5][..4] == s[..4];
    assert BigEndian(s[..5]) == BigEndian(s[..4]) * 256 + s[4];
    assert BigEndian(s[..6]) == BigEndian(s[..5]) * 256 + s[5];
    assert BigEndian(s[..7]) == BigEndian(s[..6]) * 256 + s[6];
    U32Digits(s[4], s[5], s[6], s[7]);
  }

  lemma U32Digits(a: byte, b: byte, c: byte, d: byte)
    ensures U32(a, b, c, d) == U24(a, b, c) * 256 + d && U24(a, b, c) == U16(a, b) * 256 + c && U16(a, b) == a as int * 256 + b
  {
  }

  lemma {:induction false} BigEndianZeros(s: seq<byte>)
    requires forall i | 0 <= i < |s| :: s[i] == 0
    ensures BigEndian(s) == 0
  {
    if s != [] {
      BigEndianZeros(s[..|s| - 1]);
    }
  }

  /** Bit i of a number, the lowest being bit 0. */
  function Bit(a: nat, i: nat): bool {
    if i == 0 then a % 2 == 1 else Bit(a / 2, i - 1)
  }

  /** Exclusive or of the n low bits. */
  function XorBits(a: nat, b: nat, n: nat): nat {
    if n == 0 then 0 else (a % 2 + b % 2) % 2 + 2 * XorBits(a / 2, b / 2, n - 1)
  }

  function Pow2(n: nat): (p: nat)
    ensures p >= 1
  {
    if n == 0 then 1 else 2 * Pow2(n - 1)
  }

  lemma {:induction false} XorBitsBound(a: nat, b: nat, n: nat)
    ensures XorBits(a, b, n) < Pow2(n)
  {
    if n > 0 {
      XorBitsBound(a / 2, b / 2, n - 1);
    }
  }

  lemma XorDigits(a: nat, b: nat, n: nat)
    requires n > 0
    ensures XorBits(a, b, n) % 2 == (a % 2 + b % 2) % 2
    ensures XorBits(a, b, n) / 2 == XorBits(a / 2, b / 2, n - 1)
  {
    var x := XorBits(a / 2, b / 2, n - 1);
    assert XorBits(a, b, n) == (a % 2 + b % 2) % 2 + 2 * x;
    hide XorBits;
    LowDigit((a % 2 + b % 2) % 2, x);
  }

  lemma LowDigit(d: nat, x: nat)
    requires d < 2
    ensures (d + 2 * x) % 2 == d && (d + 2 * x) / 2 == x
  {
  }

  /** Masking twice restores the masked number. */
  lemma {:induction false} XorBitsInvolution(a: nat, b: nat, n: nat)
    requires a < Pow2(n)
    ensures XorBits(XorBits(a, b, n), b, n) == a
  {
    if n > 0 {
      var p, q := a % 2, b % 2;
      XorDigits(a, b, n);
      assert ((p + q) % 2 + q) % 2 == p;
      XorBitsInvolution(a / 2, b / 2, n - 1);
    }
  }

  function Xor(a: byte, b: byte): byte {
    assert Pow2(8) == 256 by { assert Pow2(4) == 16; }
    XorBitsBound(a, b, 8);
    XorBits(a, b, 8)
  }

  lemma {:induction false} XorBitsBit(a: nat, b: nat, n: nat, i: nat)
    requires i < n
    ensures Bit(XorBits(a, b, n), i) == (Bit(a, i) != Bit(b, i))
  {
    XorDigits(a, b, n);
    hide XorBits;
    if i > 0 {
      XorBitsBit(a / 2, b / 2, n - 1, i - 1);
    }
  }

  /** Each bit of the result is set exactly when the two bits differ. */
  lemma XorIsBitwise(a: byte, b: byte, i: nat)
    requires i < 8
    ensures Bit(Xor(a, b), i) == (Bit(a, i) != Bit(b, i))
  {
    XorBitsBit(a, b, 8, i);
  }

  lemma {:induction false} XorBitsCommutes(a: nat, b: nat, n: nat)
    ensures XorBits(a, b, n) == XorBits(b, a, n)
  {
    if n > 0 {
      XorBitsCommutes(a / 2, b / 2, n - 1);
    }
  }

  lemma XorCommutes(a: byte, b: byte)
    ensures Xor(a, b) == Xor(b, a)
  {
    XorBitsCommutes(a, b, 8);
  }

  lemma XorInvolution(a: byte, b: byte)
    ensures Xor(Xor(a, b), b) == a
  {
    assert Pow2(8) == 256 by { assert Pow2(4) == 16; }
    XorBitsInvolution(a, b, 8);
  }

  lemma {:induction false} XorZero(a: nat, n: nat)
    requires a < Pow2(n)
    ensures XorBits(a, 0, n) == a
  {
    if n > 0 {
      XorZero(a / 2, n - 1);
    }
  }

  /** A mask confined to the low four bits leaves the high four as they were. */
  lemma XorLowNibble(a: byte, b: byte)
    requires b < 16
    ensures Xor(a, b) / 16 == a / 16
  {
    var a4, b4 := a / 2 / 2 / 2 / 2, b / 2 / 2 / 2 / 2;
    assert a4 == a / 16 && b4 == 0;
    assert Pow2(4) == 16;
    XorZero(a4, 4);
    assert XorBits(a / 2 / 2, b / 2 / 2, 6) / 4 == XorBits(a4, b4, 4);
    assert XorBits(a, b, 8) / 4 == XorBits(a / 2 / 2, b / 2 / 2, 6);
  }
}
