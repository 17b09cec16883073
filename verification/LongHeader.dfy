/** QUIC long headers and Initial headers (sections 17.2 and 17.2.2 of RFC 9000). */
module LongHeader {
  import opened Wrappers
  import opened Bytes
  import V = Varint

  const VERSION_1: nat := 1
  const TYPE_INITIAL: nat := 0
  const TYPE_ZERO_RTT: nat := 1
  const TYPE_HANDSHAKE: nat := 2
  const TYPE_RETRY: nat := 3

  datatype Error =
    | TruncatedHeader | TruncatedDcid | TruncatedScid
    | NotLong | UnsupportedVersion | NotInitial | BadVarint | TruncatedToken | TruncatedPayload

  datatype Cids = Cids(version: nat, packetType: nat, dcid: seq<byte>, scid: seq<byte>)

  /** None for a short header; otherwise the connection ids of a long header. */
  function Parse(packet: seq<byte>): (r: Result<Option<Cids>, Error>)
    ensures r.Success? && r.value.Some? ==>
              packet != [] && packet[0] >= 0x80 &&
              7 + |r.value.value.dcid| + |r.value.value.scid| <= |packet|
  {
    if packet == [] || packet[0] < 0x80 then Success(None)
    else if |packet| < 7 then Failure(TruncatedHeader)
    else
      var dcidEnd := packet[5] as int + 6;
      if |packet| < dcidEnd + 1 then Failure(TruncatedDcid)
      else
        var scidEnd := dcidEnd + 1 + packet[dcidEnd];
        if |packet| < scidEnd then Failure(TruncatedScid)
        else Success(Some(Cids(U32(packet[1], packet[2], packet[3], packet[4]), packet[0] / 16 % 4,
                               packet[6..dcidEnd], packet[dcidEnd + 1..scidEnd])))
  }

  ghost predicate Writable(first: byte, h: Cids) {
    first >= 0x80 && h.packetType == first / 16 % 4 && h.version < 0x1_0000_0000 &&
    |h.dcid| < 256 && |h.scid| < 256
  }

  /** The long header a sender writes under a given first byte. */
  ghost function WriteLong(first: byte, h: Cids): (s: seq<byte>)
    requires Writable(first, h)
    ensures |s| == 7 + |h.dcid| + |h.scid|
  {
    V.Powers();
    [first] + ToBigEndian(h.version, 4) + [|h.dcid|] + h.dcid + [|h.scid|] + h.scid
  }

  lemma ParseWritten(first: byte, h: Cids, rest: seq<byte>)
    requires Writable(first, h)
    ensures Parse(WriteLong(first, h) + rest) == Success(Some(h))
  {
    V.Powers();
    var p := WriteLong(first, h) + rest;
    var v := ToBigEndian(h.version, 4);
    hide ToBigEndian, BigEndian;
    assert p[1..5] == v;
    BigEndian4(v);
    assert U32(p[1], p[2], p[3], p[4]) == h.version;
    assert p[5] == |h.dcid| && p[6..6 + |h.dcid|] == h.dcid;
    var k := 6 + |h.dcid|;
    assert p[k] == |h.scid| && p[k + 1..k + 1 + |h.scid|] == h.scid;
  }

  lemma ParsedIsWritten(packet: seq<byte>)
    requires Parse(packet).Success? && Parse(packet).value.Some?
    ensures var h := Parse(packet).value.value;
            Writable(packet[0], h) && WriteLong(packet[0], h) <= packet
  {
    var h := Parse(packet).value.value;
    V.Powers();
    BigEndian4(packet[1..5]);
    BigEndianRoundTrip(packet[1..5]);
    assert WriteLong(packet[0], h) == packet[..7 + |h.dcid| + |h.scid|];
  }

  /** A packet parses to h exactly when it starts with h written under its own first byte. */
  lemma Grammar(packet: seq<byte>, h: Cids)
    ensures Parse(packet) == Success(Some(h)) <==>
            packet != [] && Writable(packet[0], h) && WriteLong(packet[0], h) <= packet
  {
    hide Parse, WriteLong;
    if Parse(packet) == Success(Some(h)) {
      ParsedIsWritten(packet);
    }
    if packet != [] && Writable(packet[0], h) && WriteLong(packet[0], h) <= packet {
      var w := WriteLong(packet[0], h);
      assert packet == w + packet[|w|..];
      ParseWritten(packet[0], h, packet[|w|..]);
    }
  }

  /** There is no long header to parse exactly when the first byte has its high bit clear, or there is none. */
  lemma ShortExactly(packet: seq<byte>)
    ensures Parse(packet) == Success(None) <==> packet == [] || packet[0] / 128 == 0
  {
  }

  /** Packet types by the first byte (sections 17.2.2 to 17.2.5 of RFC 9000), whose fixed bit is ignored. */
  lemma TypesByFirstByte(packet: seq<byte>)
    requires Parse(packet).Success? && Parse(packet).value.Some?
    ensures var h := Parse(packet).value.value;
            (h.packetType == TYPE_INITIAL <==> packet[0] / 16 in {8, 12}) &&
            (h.packetType == TYPE_ZERO_RTT <==> packet[0] / 16 in {9, 13}) &&
            (h.packetType == TYPE_HANDSHAKE <==> packet[0] / 16 in {10, 14}) &&
            (h.packetType == TYPE_RETRY <==> packet[0] / 16 in {11, 15}) &&
            (h.version == VERSION_1 <==> packet[1..5] == [0, 0, 0, 1])
  {
    hide U32;
    HighBits(packet[0] / 16);
    OneIsLaidOut(packet[1], packet[2], packet[3], packet[4]);
    assert packet[1..5] == [packet[1], packet[2], packet[3], packet[4]];
  }

  lemma HighBits(q: nat)
    requires 8 <= q < 16
    ensures q % 4 == if q < 12 then q - 8 else q - 12
  {
  }

  lemma OneIsLaidOut(a: byte, b: byte, c: byte, d: byte)
    ensures U32(a, b, c, d) == 1 <==> a == 0 && b == 0 && c == 0 && d == 1
  {
  }

  datatype Initial = Initial(cids: Cids, packetNumberOffset: nat, packetEnd: nat)

  /** Where the packet number of an Initial starts and where the packet ends in the datagram. */
  function ParseInitial(packet: seq<byte>): (r: Result<Initial, Error>)
    ensures r.Success? ==> 7 <= r.value.packetNumberOffset <= r.value.packetEnd <= |packet|
  {
    var long :- Parse(packet);
    if long.None? then Failure(NotLong)
    else
      var cids := long.value;
      if cids.version != VERSION_1 then Failure(UnsupportedVersion)
      else if cids.packetType != TYPE_INITIAL then Failure(NotInitial)
      else
        var i := 7 + |cids.dcid| + |cids.scid|;
        match V.Read(packet[i..])
        case Failure(_) => Failure(BadVarint)
        case Success((tokenLen, n)) =>
          var j := i + n;
          if |packet| < j + tokenLen then Failure(TruncatedToken)
          else
            var k := j + tokenLen;
            match V.Read(packet[k..])
            case Failure(_) => Failure(BadVarint)
            case Success((len, m)) =>
              if k + m + len > |packet| then Failure(TruncatedPayload)
              else Success(Initial(cids, k + m, k + m + len))
  }

  /** What an Initial's sender chooses ahead of the packet number. */
  datatype Layout = Layout(first: byte, cids: Cids, tokenLen: V.Var, token: seq<byte>, len: V.Var) {

    ghost predicate Valid() {
      Writable(first, cids) && cids.version == VERSION_1 && cids.packetType == TYPE_INITIAL &&
      tokenLen.Valid() && tokenLen.value == |token| && len.Valid()
    }

    ghost function Write(): seq<byte>
      requires Valid()
    {
      WriteLong(first, cids) + (tokenLen.Encode() + (token + len.Encode()))
    }

    ghost function Header(): Initial
      requires Valid()
    {
      Initial(cids, |Write()|, |Write()| + len.value)
    }
  }

  lemma ParseLayout(l: Layout, rest: seq<byte>)
    requires l.Valid() && l.len.value <= |rest|
    ensures ParseInitial(l.Write() + rest) == Success(l.Header())
  {
    hide Parse, WriteLong, V.Read, V.Var.Encode;
    var afterToken := l.len.Encode() + rest;
    var afterLong := l.tokenLen.Encode() + (l.token + afterToken);
    var p := l.Write() + rest;
    assert p == WriteLong(l.first, l.cids) + afterLong;
    ParseWritten(l.first, l.cids, afterLong);
    var i := |WriteLong(l.first, l.cids)|;
    assert p[i..] == afterLong;
    V.ReadEncoded(l.tokenLen, l.token + afterToken);
    var k := i + |l.tokenLen.Encode()| + |l.token|;
    assert p[k..] == afterToken;
    V.ReadEncoded(l.len, rest);
  }

  lemma ParsedIsLayout(packet: seq<byte>) returns (l: Layout)
    requires ParseInitial(packet).Success?
    ensures l.Valid() && l.first == packet[0]
    ensures l.Write() == packet[..ParseInitial(packet).value.packetNumberOffset]
    ensures l.Header() == ParseInitial(packet).value
  {
    hide Parse, WriteLong, V.Read, V.Var.Encode;
    var cids := Parse(packet).value.value;
    ParsedIsWritten(packet);
    var i := 7 + |cids.dcid| + |cids.scid|;
    var tokenLen := V.ReadIsEncoded(packet[i..]);
    var j := i + V.Read(packet[i..]).value.1;
    assert packet[i..][..j - i] == packet[i..j];
    var k := j + tokenLen.value;
    var len := V.ReadIsEncoded(packet[k..]);
    var end := k + V.Read(packet[k..]).value.1;
    assert packet[k..][..end - k] == packet[k..end];
    l := Layout(packet[0], cids, tokenLen, packet[j..k], len);
    assert WriteLong(packet[0], cids) == packet[..i];
    assert packet[..end] == packet[..i] + (packet[i..j] + (packet[j..k] + packet[k..end]));
  }

  ghost predicate LaidOut(l: Layout, packet: seq<byte>) {
    l.Valid() && l.Write() <= packet && |l.Write()| + l.len.value <= |packet|
  }

  /** Initial headers parse exactly when some layout wrote them, and give that layout's offsets. */
  lemma InitialGrammar(packet: seq<byte>)
    ensures ParseInitial(packet).Success? <==> exists l :: LaidOut(l, packet)
    ensures forall l :: LaidOut(l, packet) ==> ParseInitial(packet) == Success(l.Header())
  {
    hide ParseInitial, Layout.Write;
    if ParseInitial(packet).Success? {
      var l := ParsedIsLayout(packet);
      assert LaidOut(l, packet);
    }
    forall l | LaidOut(l, packet) ensures ParseInitial(packet) == Success(l.Header()) {
      assert packet == l.Write() + packet[|l.Write()|..];
      ParseLayout(l, packet[|l.Write()|..]);
    }
  }
}
