/**
 Removing the protection of Initial packets (sections 5.2 to 5.4 of RFC 9001). HKDF, the AEAD and
 the header-protection mask are parameters; nothing is assumed of them but their output lengths
 and that opening undoes sealing.
 */
module InitialProtection {
  import opened Wrappers
  import opened Bytes
  import L = LongHeader

  const SAMPLE_LEN: nat := 16
  const TAG_LEN: nat := 16

  type Iv = s: seq<byte> | |s| == 12 witness seq(12, _ => 0)
  type Mask = s: seq<byte> | |s| == 5 witness seq(5, _ => 0)

  datatype Keys = Keys(key: seq<byte>, iv: Iv, hp: seq<byte>)

  datatype Primitives = Primitives(
    keys: seq<byte> -> Keys,
    mask: (seq<byte>, seq<byte>) -> Mask,
    seal: (seq<byte>, seq<byte>, seq<byte>, seq<byte>) -> seq<byte>,
    open: (seq<byte>, seq<byte>, seq<byte>, seq<byte>) -> Option<seq<byte>>
  ) {
    ghost predicate Lawful() {
      forall key: seq<byte>, nonce: seq<byte>, aad: seq<byte>, text: seq<byte> ::
        |seal(key, nonce, aad, text)| == |text| + TAG_LEN &&
        open(key, nonce, aad, seal(key, nonce, aad, text)) == Some(text)
    }
  }

  datatype Error = BadHeader(error: L.Error) | NoSample | DecryptFailed

  datatype Decrypted = Decrypted(dcid: seq<byte>, scid: seq<byte>, payload: seq<byte>)

  /** The initialization vector with the packet number folded into its last eight bytes. */
  function Nonce(iv: Iv, packetNumber: nat): seq<byte>
    requires packetNumber < Pow256(8)
  {
    var number := ToBigEndian(packetNumber, 8);
    seq(12, i requires 0 <= i < 12 => if i < 4 then iv[i] else Xor(iv[i], number[i - 4]))
  }

  /**
   The packet number is padded to the left to the length of the initialization vector and combined with
   it bit by bit (section 5.3 of RFC 9001).
   */
  lemma NonceCarriesNumber(iv: Iv, packetNumber: nat)
    requires packetNumber < Pow256(8)
    ensures var nonce := Nonce(iv, packetNumber);
            |nonce| == 12 && nonce[..4] == iv[..4] &&
            BigEndian(seq(8, i requires 0 <= i < 8 => Xor(nonce[i + 4], iv[i + 4]))) == packetNumber
  {
    hide Xor;
    var nonce, number := Nonce(iv, packetNumber), ToBigEndian(packetNumber, 8);
    var back := seq(8, i requires 0 <= i < 8 => Xor(nonce[i + 4], iv[i + 4]));
    forall i | 0 <= i < 8 ensures back[i] == number[i] {
      XorCommutes(iv[i + 4], number[i]);
      XorInvolution(number[i], iv[i + 4]);
    }
    assert back == number;
  }

  /** Bytes of a packet number, each combined with its byte of the mask. */
  function MaskNumber(s: seq<byte>, mask: Mask): (r: seq<byte>)
    requires |s| <= 4
    ensures |r| == |s|
  {
    seq(|s|, i requires 0 <= i < |s| => Xor(s[i], mask[i + 1]))
  }

  lemma NumberBound(s: seq<byte>)
    requires |s| <= 4
    ensures BigEndian(s) < Pow256(8)
  {
    BigEndianBound(s);
    PowMonotone(|s|, 8);
  }

  lemma {:induction false} PowMonotone(a: nat, b: nat)
    requires a <= b
    ensures Pow256(a) <= Pow256(b)
  {
    if a < b {
      PowMonotone(a, b - 1);
    }
  }

  /** Unprotects an Initial whose header has been read, with the given keys. */
  function Unprotect(c: Primitives, keys: Keys, packet: seq<byte>, header: L.Initial): Result<Decrypted, Error>
    requires 7 <= header.packetNumberOffset <= header.packetEnd <= |packet|
  {
    var o := header.packetNumberOffset;
    if header.packetEnd < o + 4 + SAMPLE_LEN then Failure(NoSample)
    else
      var mask := c.mask(keys.hp, packet[o + 4..o + 4 + SAMPLE_LEN]);
      var first := Xor(packet[0], mask[0] % 16);
      var end := o + first % 4 + 1;
      var number := MaskNumber(packet[o..end], mask);
      NumberBound(number);
      match c.open(keys.key, Nonce(keys.iv, BigEndian(number)), [first] + packet[1..o] + number,
                   packet[end..header.packetEnd])
      case None => Failure(DecryptFailed)
      case Some(payload) => Success(Decrypted(header.cids.dcid, header.cids.scid, payload))
  }

  /** Unprotects an Initial, with keys from `keyDcid` or else from its own destination id. */
  function Decrypt(c: Primitives, packet: seq<byte>, keyDcid: Option<seq<byte>>): Result<Decrypted, Error> {
    match L.ParseInitial(packet)
    case Failure(e) => Failure(BadHeader(e))
    case Success(header) => Unprotect(c, c.keys(keyDcid.GetOr(header.cids.dcid)), packet, header)
  }

  /** Unmasks the packet number in a copy of the header while accumulating its value. */
  method UnmaskHeader(packet: seq<byte>, o: nat, end: nat, first: byte, mask: Mask)
    returns (aad: seq<byte>, packetNumber: nat)
    requires 1 <= o <= end <= |packet| && end - o <= 4
    ensures aad == [first] + packet[1..o] + MaskNumber(packet[o..end], mask)
    ensures packetNumber == BigEndian(MaskNumber(packet[o..end], mask))
  {
    hide Xor;
    ghost var number := MaskNumber(packet[o..end], mask);
    aad := packet[..end][0 := first];
    packetNumber := 0;
    for i := 0 to end - o
      invariant aad == [first] + packet[1..o] + number[..i] + packet[o + i..end]
      invariant packetNumber == BigEndian(number[..i])
    {
      aad := aad[o + i := Xor(aad[o + i], mask[i + 1])];
      assert number[..i + 1][..i] == number[..i];
      packetNumber := packetNumber * 256 + aad[o + i];
    }
    assert number[..end - o] == number;
  }

  method DecryptInitial(c: Primitives, packet: seq<byte>, keyDcid: Option<seq<byte>>)
    returns (r: Result<Decrypted, Error>)
    ensures r == Decrypt(c, packet, keyDcid)
  {
    hide Nonce, Xor, L.ParseInitial;
    var parsed := L.ParseInitial(packet);
    if parsed.Failure? {
      return Failure(BadHeader(parsed.error));
    }
    var header := parsed.value;
    var keys := c.keys(keyDcid.GetOr(header.cids.dcid));
    var o := header.packetNumberOffset;
    if header.packetEnd < o + 4 + SAMPLE_LEN {
      return Failure(NoSample);
    }
    var mask := c.mask(keys.hp, packet[o + 4..o + 4 + SAMPLE_LEN]);
    var first := Xor(packet[0], mask[0] % 16);
    var end := o + first % 4 + 1;
    var aad, packetNumber := UnmaskHeader(packet, o, end, first, mask);
    NumberBound(MaskNumber(packet[o..end], mask));
    var plain := c.open(keys.key, Nonce(keys.iv, packetNumber), aad, packet[end..header.packetEnd]);
    r := match plain
         case None => Failure(DecryptFailed)
         case Some(payload) => Success(Decrypted(header.cids.dcid, header.cids.scid, payload));
  }

  /** What a sender puts into one Initial. */
  datatype Plain = Plain(layout: L.Layout, number: nat, numberLen: nat, payload: seq<byte>) {

    ghost predicate Valid() {
      layout.Valid() && 1 <= numberLen <= 4 && number < Pow256(numberLen) &&
      layout.first % 4 == numberLen - 1 &&
      layout.len.value == numberLen + |payload| + TAG_LEN &&
      |payload| + numberLen >= 4
    }

    ghost function Number(): (s: seq<byte>)
      requires Valid()
      ensures |s| == numberLen && BigEndian(s) == number
    {
      ToBigEndian(number, numberLen)
    }

    ghost function Sealed(c: Primitives, keys: Keys): seq<byte>
      requires Valid()
    {
      NumberBound(Number());
      c.seal(keys.key, Nonce(keys.iv, number), layout.Write() + Number(), payload)
    }

    ghost function MaskOf(c: Primitives, keys: Keys): Mask
      requires c.Lawful() && Valid()
    {
      c.mask(keys.hp, (Number() + Sealed(c, keys))[4..4 + SAMPLE_LEN])
    }

    /** Seals the payload, then masks the low bits of the first byte and the packet number. */
    ghost function Protect(c: Primitives, keys: Keys): seq<byte>
      requires c.Lawful() && Valid()
    {
      var mask := MaskOf(c, keys);
      var header := layout.Write();
      header[0 := Xor(header[0], mask[0] % 16)] + MaskNumber(Number(), mask) + Sealed(c, keys)
    }
  }

  /** Masking the low four bits of the first byte leaves the header's layout as it was. */
  lemma MaskedLayout(l: L.Layout, m: byte) returns (masked: L.Layout)
    requires l.Valid() && m < 16
    ensures masked.Valid() && masked == l.(first := Xor(l.first, m))
    ensures masked.Write() == l.Write()[0 := Xor(l.first, m)]
    ensures |l.Write()| >= 7 && l.Write()[0] == l.first
  {
    hide Xor;
    XorLowNibble(l.first, m);
    masked := l.(first := Xor(l.first, m));
  }

  lemma PacketParts(header: seq<byte>, number: seq<byte>, masked: seq<byte>, sealed: seq<byte>, rest: seq<byte>)
    requires |number| == |masked| <= 4 && |masked| + |sealed| >= 4 + SAMPLE_LEN
    ensures var packet := header + (masked + sealed + rest); var o := |header|; var end := o + |masked|;
            packet[o..end] == masked && packet[end..end + |sealed|] == sealed &&
            packet[o + 4..o + 4 + SAMPLE_LEN] == (number + sealed)[4..4 + SAMPLE_LEN] &&
            packet[..o] == header
  {
  }

  /** Unprotecting, given what unmasking and opening come to. */
  lemma UnprotectGiven(c: Primitives, keys: Keys, packet: seq<byte>, h: L.Initial, end: nat, number: seq<byte>, payload: seq<byte>)
    requires 7 <= h.packetNumberOffset <= end <= h.packetEnd <= |packet| && h.packetEnd >= h.packetNumberOffset + 4 + SAMPLE_LEN
    requires end - h.packetNumberOffset <= 4 && BigEndian(number) < Pow256(8)
    requires var o := h.packetNumberOffset;
             var mask := c.mask(keys.hp, packet[o + 4..o + 4 + SAMPLE_LEN]);
             var first := Xor(packet[0], mask[0] % 16);
             end == o + first % 4 + 1 && MaskNumber(packet[o..end], mask) == number &&
             c.open(keys.key, Nonce(keys.iv, BigEndian(number)), [first] + packet[1..o] + number, packet[end..h.packetEnd]) ==
             Some(payload)
    ensures Unprotect(c, keys, packet, h) == Success(Decrypted(h.cids.dcid, h.cids.scid, payload))
  {
    hide Nonce, Xor, MaskNumber, BigEndian, Pow256;
  }

  lemma UnprotectProtected(c: Primitives, p: Plain, keys: Keys, rest: seq<byte>)
    requires c.Lawful() && p.Valid()
    requires |p.layout.Write()| >= 7 && p.layout.Write()[0] == p.layout.first
    ensures var packet := p.Protect(c, keys) + rest;
            p.layout.Header().packetEnd <= |packet| &&
            Unprotect(c, keys, packet, p.layout.Header()) ==
            Success(Decrypted(p.layout.cids.dcid, p.layout.cids.scid, p.payload))
  {
    hide Nonce, Xor, L.Layout.Write, MaskNumber, Unprotect, BigEndian, ToBigEndian, Pow256;
    var mask := p.MaskOf(c, keys);
    var sealed := p.Sealed(c, keys);
    var header, number := p.layout.Write(), p.Number();
    var maskedHeader := header[0 := Xor(header[0], mask[0] % 16)];
    var masked := MaskNumber(number, mask);
    var packet := p.Protect(c, keys) + rest;
    assert packet == maskedHeader + (masked + sealed + rest);
    PacketParts(maskedHeader, number, masked, sealed, rest);
    XorInvolution(p.layout.first, mask[0] % 16);
    MaskTwice(number, mask);
    HeaderRestored(header, maskedHeader[0], masked + sealed + rest);
    NumberBound(number);
    UnprotectGiven(c, keys, packet, p.layout.Header(), |header| + p.numberLen, number, p.payload);
  }

  lemma HeaderRestored(header: seq<byte>, m: byte, tail: seq<byte>)
    requires header != []
    ensures [header[0]] + (header[0 := m] + tail)[1..|header|] == header
  {
  }

  /**
   Header protection as the packet shows it (section 5.4.1 of RFC 9001): the mask comes from the 16
   bytes that start four bytes after the packet number does; its first byte goes into the low four
   bits of the first byte, and its others into the packet number, byte by byte.
   */
  lemma ProtectedBytes(c: Primitives, p: Plain, keys: Keys)
    requires c.Lawful() && p.Valid()
    ensures var packet, header := p.Protect(c, keys), p.layout.Write();
            var o := |header|;
            o >= 7 && |packet| >= o + 20 &&
            var mask := c.mask(keys.hp, packet[o + 4..o + 20]);
            packet[0] == Xor(header[0], mask[0] % 16) && packet[1..o] == header[1..] &&
            forall i | 0 <= i < p.numberLen :: packet[o + i] == Xor(p.Number()[i], mask[1 + i])
  {
    hide Xor, Nonce, L.Layout.Write;
    var _ := MaskedLayout(p.layout, 0);
    var header, sealed := p.layout.Write(), p.Sealed(c, keys);
    var mask := p.MaskOf(c, keys);
    var first := header[0 := Xor(header[0], mask[0] % 16)];
    var masked := MaskNumber(p.Number(), mask);
    assert p.Protect(c, keys) == first + (masked + sealed + []);
    PacketParts(first, p.Number(), masked, sealed, []);
  }

  /**
   Unprotecting a protected Initial recovers its ids and payload, whichever packet-number length
   from 1 to 4 the sender chose and whatever follows the packet in its datagram.
   */
  lemma RoundTrip(c: Primitives, p: Plain, keyDcid: Option<seq<byte>>, rest: seq<byte>)
    requires c.Lawful() && p.Valid()
    ensures var keys := c.keys(if keyDcid.Some? then keyDcid.value else p.layout.cids.dcid);
            Decrypt(c, p.Protect(c, keys) + rest, keyDcid) ==
            Success(Decrypted(p.layout.cids.dcid, p.layout.cids.scid, p.payload))
  {
    hide Nonce, Xor, L.ParseInitial, L.Layout.Write, Unprotect, MaskNumber;
    var keys := c.keys(keyDcid.GetOr(p.layout.cids.dcid));
    var mask := p.MaskOf(c, keys);
    var masked := MaskedLayout(p.layout, mask[0] % 16);
    var afterHeader := MaskNumber(p.Number(), mask) + p.Sealed(c, keys) + rest;
    assert p.Protect(c, keys) + rest == masked.Write() + afterHeader;
    L.ParseLayout(masked, afterHeader);
    UnprotectProtected(c, p, keys, rest);
  }

  lemma MaskTwice(s: seq<byte>, mask: Mask)
    requires |s| <= 4
    ensures MaskNumber(MaskNumber(s, mask), mask) == s
  {
    hide Xor;
    forall i | 0 <= i < |s| ensures MaskNumber(MaskNumber(s, mask), mask)[i] == s[i] {
      XorInvolution(s[i], mask[i + 1]);
    }
  }
}
