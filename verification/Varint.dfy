/** QUIC variable-length integers (section 16 of RFC 9000). */
module Varint {
  import opened Wrappers
  import opened Bytes

  datatype Error = MissingVarint | TruncatedVarint

  /** Bytes taken by a varint whose first byte has the two high bits `log`. */
  function Width(log: nat): (w: nat)
    requires log <= 3
    ensures 1 <= w <= 8
  {
    if log == 0 then 1 else if log == 1 then 2 else if log == 2 then 4 else 8
  }

  /** Least value too large for the width. */
  function Limit(log: nat): nat
    requires log <= 3
  {
    if log == 0 then 0x40 else if log == 1 then 0x4000
    else if log == 2 then 0x4000_0000 else 0x4000_0000_0000_0000
  }

  /** The varint at the start of s: its value and its width. */
  function Read(s: seq<byte>): (r: Result<(nat, nat), Error>)
    ensures r.Success? ==> 1 <= r.value.1 <= 8 && r.value.1 <= |s|
  {
    if s == [] then Failure(MissingVarint)
    else
      var width := Width(s[0] / 64);
      if |s| < width then Failure(TruncatedVarint)
      else Success((BigEndian(s[..width][0 := s[0] % 64]), width))
  }

  /** Reads the varint at `offset` byte by byte. */
  method ReadAt(buf: seq<byte>, offset: nat) returns (r: Result<(nat, nat), Error>)
    requires offset <= |buf|
    ensures r == Read(buf[offset..])
  {
    if offset >= |buf| {
      return Failure(MissingVarint);
    }
    var first := buf[offset];
    var width := Width(first / 64);
    if |buf| < offset + width {
      return Failure(TruncatedVarint);
    }
    ghost var whole := buf[offset..][..width][0 := first % 64];
    var value: nat := first % 64;
    assert whole[..1] == [first % 64];
    for j := 1 to width
      invariant value == BigEndian(whole[..j])
    {
      assert whole[..j + 1][..j] == whole[..j];
      value := value * 256 + buf[offset + j];
    }
    assert whole[..width] == whole;
    r := Success((value, width));
  }

  /** A value together with the width a sender chose to write it in. */
  datatype Var = Var(value: nat, log: nat) {

    ghost predicate Valid() {
      log <= 3 && value < Limit(log)
    }

    function Encode(): (s: seq<byte>)
      requires Valid()
      ensures |s| == Width(log)
    {
      Powers();
      var s := ToBigEndian(value, Width(log));
      TopByte(s, log);
      s[0 := s[0] + 64 * log]
    }
  }

  /** The width is two to the power of the two high bits, and the limit two to that of the remaining ones. */
  lemma WidthIsPower(log: nat)
    requires log <= 3
    ensures Width(log) == Pow2(log) && Limit(log) * 4 == Pow256(Width(log))
  {
    Powers();
    assert Pow2(3) == 8;
  }

  /** The examples of section A.1 of RFC 9000. */
  lemma StandardExamples()
    ensures Read([0x9d, 0x7f, 0x3e, 0x7d]) == Success((494_878_333, 4))
    ensures Read([0x7b, 0xbd]) == Success((15_293, 2))
    ensures Read([0x25]) == Success((37, 1)) && Read([0x40, 0x25]) == Success((37, 2))
  {
    BigEndian1([0x25]);
    BigEndian2([0x3b, 0xbd]);
    BigEndian2([0x00, 0x25]);
    BigEndian4([0x1d, 0x7f, 0x3e, 0x7d]);
    hide BigEndian;
    assert [0x9d, 0x7f, 0x3e, 0x7d][..4][0 := 0x1d] == [0x1d, 0x7f, 0x3e, 0x7d];
    assert [0x7b, 0xbd][..2][0 := 0x3b] == [0x3b, 0xbd];
    assert [0x40, 0x25][..2][0 := 0] == [0x00, 0x25];
    assert [0x25][..1][0 := 0x25] == [0x25];
  }

  lemma LongestExample()
    ensures Read([0xc2, 0x19, 0x7c, 0x5e, 0xff, 0x14, 0xe8, 0x8c]) == Success((151_288_809_941_952_652, 8))
  {
    var s := [0xc2, 0x19, 0x7c, 0x5e, 0xff, 0x14, 0xe8, 0x8c];
    BigEndian8([0x02, 0x19, 0x7c, 0x5e, 0xff, 0x14, 0xe8, 0x8c]);
    hide BigEndian;
    assert s[..8][0 := 2] == [0x02, 0x19, 0x7c, 0x5e, 0xff, 0x14, 0xe8, 0x8c];
  }

  lemma Powers()
    ensures Pow256(1) == 0x100 && Pow256(2) == 0x1_0000 && Pow256(4) == 0x1_0000_0000
    ensures Pow256(8) == 0x1_0000_0000_0000_0000
  {
    assert Pow256(3) == 0x100_0000;
    assert Pow256(5) == 0x100_0000_0000;
    assert Pow256(6) == 0x1_0000_0000_0000;
    assert Pow256(7) == 0x100_0000_0000_0000;
  }

  lemma {:induction false} BigEndianTop(s: seq<byte>)
    requires s != []
    ensures BigEndian(s) == s[0] * Pow256(|s| - 1) + BigEndian(s[1..])
  {
    if |s| == 1 {
      assert s[..0] == [];
    } else {
      var front := s[..|s| - 1];
      BigEndianTop(front);
      assert front[1..] == s[1..][..|s| - 2];
      assert (s[0] * Pow256(|s| - 2)) * 256 == s[0] * Pow256(|s| - 1);
    }
  }

  /** A value under its limit leaves the two high bits of its first byte free. */
  lemma TopByte(s: seq<byte>, log: nat)
    requires log <= 3 && |s| == Width(log)
    ensures s[0] < 64 <==> BigEndian(s) < Limit(log)
  {
    Powers();
    BigEndianTop(s);
    BigEndianBound(s[1..]);
    assert Limit(log) == 64 * Pow256(|s| - 1) by {
      assert Pow256(3) == 0x100_0000;
      assert Pow256(7) == 0x100_0000_0000_0000;
    }
    if s[0] < 64 {
      assert s[0] * Pow256(|s| - 1) <= 63 * Pow256(|s| - 1);
    } else {
      assert s[0] * Pow256(|s| - 1) >= 64 * Pow256(|s| - 1);
    }
  }

  /** Reading recovers what was written, in whichever of the four widths. */
  lemma ReadEncoded(v: Var, rest: seq<byte>)
    requires v.Valid()
    ensures Read(v.Encode() + rest) == Success((v.value, |v.Encode()|))
  {
    hide BigEndian;
    Powers();
    var plain := ToBigEndian(v.value, Width(v.log));
    TopByte(plain, v.log);
    var s := v.Encode() + rest;
    assert s[0] == plain[0] + 64 * v.log;
    assert s[..Width(v.log)][0 := s[0] % 64] == plain;
  }

  /** Whatever reads as a varint was written by exactly one value and width. */
  lemma ReadIsEncoded(s: seq<byte>) returns (v: Var)
    requires Read(s).Success?
    ensures v.Valid() && v.value == Read(s).value.0
    ensures v.Encode() == s[..Read(s).value.1]
  {
    hide BigEndian, ToBigEndian, Pow256;
    var log := s[0] / 64;
    var width := Width(log);
    var plain := s[..width][0 := s[0] % 64];
    v := Var(BigEndian(plain), log);
    TopByte(plain, log);
    BigEndianRoundTrip(plain);
    assert plain[0 := s[0]] == s[..width];
  }
}
