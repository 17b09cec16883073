/** Socket addresses, their IPv4-mapped forms, and CIDR blocks. */
module Addresses {
  import opened Wrappers
  import opened Bytes

  type Ip4 = x: int | 0 <= x < 0x1_0000_0000
  type Ip6 = x: int | 0 <= x < 0x1_0000_0000_0000_0000_0000_0000_0000_0000

  datatype SocketAddr =
    | V4(ip4: Ip4, port: nat)
    | V6(ip6: Ip6, port: nat, flow: nat, scope: nat)

  /** ::ffff:a.b.c.d */
  function Mapped(ip: Ip4): Ip6 {
    0xFFFF_0000_0000 + ip
  }

  function ToMapped(ip: Ip6): Option<Ip4> {
    if ip / 0x1_0000_0000 == 0xFFFF then Some(ip % 0x1_0000_0000) else None
  }

  lemma MappedExactly(ip: Ip6, a: Ip4)
    ensures ToMapped(ip) == Some(a) <==> ip == Mapped(a)
  {
  }

  /** An IPv4-mapped address becomes the IPv4 address; any other stays as it is. */
  function Normalize(addr: SocketAddr): SocketAddr {
    match addr
    case V4(_, _) => addr
    case V6(ip, port, _, _) =>
      match ToMapped(ip)
      case Some(v4) => V4(v4, port)
      case None => addr
  }

  function PeerIp(peer: SocketAddr): Ip6 {
    match peer
    case V4(ip, _) => Mapped(ip)
    case V6(ip, _, _, _) => ip
  }

  /** Normalizing is idempotent and keeps the address that access rules see. */
  lemma NormalizeKeepsPeer(addr: SocketAddr)
    ensures Normalize(Normalize(addr)) == Normalize(addr)
    ensures PeerIp(Normalize(addr)) == PeerIp(addr)
  {
    if addr.V6? && ToMapped(addr.ip6).Some? {
      MappedExactly(addr.ip6, ToMapped(addr.ip6).value);
    }
  }

  /** Two addresses are one endpoint: the same, or IPv4 forms of one address with the same port. */
  ghost predicate SameEndpoint(a: SocketAddr, b: SocketAddr) {
    a == b || (PeerIp(a) == PeerIp(b) && a.port == b.port && IsMapped(PeerIp(a)))
  }

  /** Ten zero bytes, two bytes of ones, and the four bytes of an IPv4 address (section 2.5.5.2 of RFC 4291). */
  ghost predicate IsMapped(ip: Ip6) {
    exists a: byte, b: byte, c: byte, d: byte :: ip == BigEndian(MappedBytes(a, b, c, d))
  }

  function MappedBytes(a: byte, b: byte, c: byte, d: byte): seq<byte> {
    [0, 0, 0, 0, 0, 0, 0, 0, 0, 0, 255, 255, a, b, c, d]
  }

  /** The mapped form of an IPv4 address is that of its four bytes. */
  lemma MappedIsLaidOut(a: byte, b: byte, c: byte, d: byte)
    ensures Mapped(U32(a, b, c, d)) == BigEndian(MappedBytes(a, b, c, d))
  {
    var s := MappedBytes(a, b, c, d);
    assert BigEndian(s[..12]) == 0xFFFF by {
      BigEndianZeros(s[..10]);
      assert s[..12][..11] == s[..11] && s[..11][..10] == s[..10];
      assert BigEndian(s[..11]) == 255;
    }
    assert s[..16] == s && s[..16][..15] == s[..15] && s[..15][..14] == s[..14] && s[..14][..13] == s[..13] &&
           s[..13][..12] == s[..12];
    assert BigEndian(s[..13]) == 0xFFFF * 0x100 + a;
    assert BigEndian(s[..14]) == (0xFFFF * 0x100 + a) * 0x100 + b;
    assert BigEndian(s[..15]) == ((0xFFFF * 0x100 + a) * 0x100 + b) * 0x100 + c;
  }

  lemma MappedIffLaidOut(ip: Ip6)
    ensures IsMapped(ip) <==> ToMapped(ip).Some?
  {
    hide BigEndian, MappedBytes, U32, Mapped, ToMapped;
    if ToMapped(ip).Some? {
      var a, b, c, d := FourBytes(ToMapped(ip).value);
      MappedIsLaidOut(a, b, c, d);
      MappedExactly(ip, ToMapped(ip).value);
    }
    if IsMapped(ip) {
      var a: byte, b: byte, c: byte, d: byte :| ip == BigEndian(MappedBytes(a, b, c, d));
      MappedIsLaidOut(a, b, c, d);
      FitsIp4(a, b, c, d);
      MappedExactly(ip, U32(a, b, c, d));
    }
  }

  lemma FitsIp4(a: byte, b: byte, c: byte, d: byte)
    ensures U32(a, b, c, d) < 0x1_0000_0000
  {
  }

  lemma FourBytes(v: Ip4) returns (a: byte, b: byte, c: byte, d: byte)
    ensures U32(a, b, c, d) == v
  {
    var high, low := v / 0x1_0000, v % 0x1_0000;
    a, b := TwoBytes(high);
    c, d := TwoBytes(low);
  }

  lemma TwoBytes(v: nat) returns (a: byte, b: byte)
    requires v < 0x1_0000
    ensures v == a as int * 0x100 + b
  {
    a, b := v / 0x100, v % 0x100;
  }

  /** Normalizing identifies the forms of one endpoint and nothing else: neither another address nor another port. */
  lemma NormalizeIdentifies(a: SocketAddr, b: SocketAddr)
    ensures Normalize(a) == Normalize(b) <==> SameEndpoint(a, b)
  {
    hide IsMapped;
    MappedIffLaidOut(PeerIp(a));
    MappedIffLaidOut(PeerIp(b));
    if a.V4? {
      MappedExactly(PeerIp(a), a.ip4);
    }
    if b.V4? {
      MappedExactly(PeerIp(b), b.ip4);
    }
  }

  /** A block: the addresses that share the first `prefix` bits of `ip`. */
  datatype Net4 = Net4(ip: Ip4, prefix: nat) {

    ghost predicate Valid() {
      prefix <= 32
    }

    function Network(): Ip4
      requires Valid()
    {
      Truncate(ip, 32 - prefix)
    }

    predicate Contains(a: Ip4)
      requires Valid()
    {
      Network() <= a < Network() + Pow2(32 - prefix)
    }
  }

  datatype Net6 = Net6(ip: Ip6, prefix: nat) {

    ghost predicate Valid() {
      prefix <= 128
    }

    predicate Contains(a: Ip6)
      requires Valid()
    {
      var network := Truncate(ip, 128 - prefix);
      network <= a < network + Pow2(128 - prefix)
    }
  }

  /** The address with its host bits cleared. */
  function Truncate(ip: nat, hostBits: nat): (r: nat)
    ensures r <= ip < r + Pow2(hostBits)
  {
    var p := Pow2(hostBits);
    DivMod(ip, p);
    (ip / p) * p
  }

  lemma DivMod(x: nat, p: nat)
    requires p > 0
    ensures 0 <= x / p && x % p < p && x == (x / p) * p + x % p
  {
  }

  /** An address lies in a block exactly when it has the block's prefix. */
  lemma ContainsByPrefix4(net: Net4, a: Ip4)
    requires net.Valid()
    ensures net.Contains(a) <==> a / Pow2(32 - net.prefix) == net.ip / Pow2(32 - net.prefix)
  {
    SamePrefix(net.ip, a, Pow2(32 - net.prefix));
  }

  lemma ContainsByPrefix6(net: Net6, a: Ip6)
    requires net.Valid()
    ensures net.Contains(a) <==> a / Pow2(128 - net.prefix) == net.ip / Pow2(128 - net.prefix)
  {
    SamePrefix(net.ip, a, Pow2(128 - net.prefix));
  }

  lemma SamePrefix(ip: nat, a: nat, p: nat)
    requires p > 0
    ensures (ip / p) * p <= a < (ip / p) * p + p <==> a / p == ip / p
  {
    DivMod(ip, p);
    DivMod(a, p);
    if a / p > ip / p {
      Grow(a / p, ip / p + 1, p);
    }
    if a / p < ip / p {
      Grow(ip / p, a / p + 1, p);
    }
  }

  lemma Grow(a: int, b: int, p: nat)
    requires a >= b
    ensures a * p >= b * p
  {
    assert (a - b) * p >= 0;
    assert a * p == b * p + (a - b) * p;
  }

  lemma MulDiv(k: nat, p: nat)
    requires p > 0
    ensures (k * p) / p == k
  {
    DivMod(k * p, p);
    var q := (k * p) / p;
    if q > k {
      Grow(q, k + 1, p);
    }
    if q < k {
      Grow(k, q + 1, p);
    }
  }

  /** An IPv4 block as a block of IPv4-mapped addresses. */
  function Lift(net: Net4): (r: Net6)
    requires net.Valid()
    ensures r.Valid()
  {
    Net6(Mapped(net.Network()), 96 + net.prefix)
  }

  lemma {:induction false} Pow2Splits(a: nat, b: nat)
    ensures Pow2(a + b) == Pow2(a) * Pow2(b)
  {
    if a > 0 {
      Pow2Splits(a - 1, b);
      Doubled(Pow2(a - 1), Pow2(b));
    }
  }

  lemma Doubled(x: nat, y: nat)
    ensures 2 * (x * y) == (2 * x) * y
  {
  }

  lemma Pow2Of32()
    ensures Pow2(32) == 0x1_0000_0000
  {
    assert Pow2(4) == 16;
    assert Pow2(8) == 256 by { Pow2Splits(4, 4); }
    assert Pow2(16) == 65536 by { Pow2Splits(8, 8); }
    Pow2Splits(16, 16);
  }

  /** With p * m = 2^32, the network k * p is aligned in the mapped space and its block ends inside it. */
  lemma Aligned(k: nat, p: nat, m: nat)
    requires p > 0 && p * m == 0x1_0000_0000 && k * p < 0x1_0000_0000
    ensures k * p + p <= 0x1_0000_0000
    ensures (0xFFFF_0000_0000 + k * p) / p * p == 0xFFFF_0000_0000 + k * p
  {
    if k >= m {
      Grow(k, m, p);
    } else {
      Grow(m, k + 1, p);
    }
    assert (0xFFFF * m + k) * p == 0xFFFF * (m * p) + k * p;
    MulDiv(0xFFFF * m + k, p);
  }

  /** The lifted block holds exactly the mapped forms of the block's addresses. */
  lemma LiftIsExact(net: Net4, x: Ip6)
    requires net.Valid()
    ensures Lift(net).Contains(x) <==> ToMapped(x).Some? && net.Contains(ToMapped(x).value)
  {
    hide Pow2;
    var p := Pow2(32 - net.prefix);
    Pow2Of32();
    Pow2Splits(32 - net.prefix, net.prefix);
    Aligned(net.ip / p, p, Pow2(net.prefix));
    assert 128 - Lift(net).prefix == 32 - net.prefix;
    assert Truncate(Mapped(net.Network()), 32 - net.prefix) == Mapped(net.Network());
  }
}
