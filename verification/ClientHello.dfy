/**
 The server name in a TLS ClientHello (section 4.1.2 of RFC 8446, section 3 of RFC 6066). The
 HTTP/3 and the TCP router each carry a copy of this walker.
 */
module ClientHello {
  import opened Wrappers
  import opened Bytes

  datatype Error =
    | TooShort | NotClientHello | TruncatedBody | BodyTooShort | TruncatedSessionId
    | MissingCiphers | InvalidCiphers | MissingCompression | InvalidCompression
    | MissingExtensions | TruncatedExtensions | TruncatedExtension
    | MissingList | TruncatedList | TruncatedName

  type SniResult = Result<Option<seq<byte>>, Error>

  const CLIENT_HELLO: int := 1
  const SERVER_NAME: int := 0
  const HOST_NAME: int := 0

  /** First host name of a server-name list. Fewer than three bytes left over are ignored. */
  function NamesSni(s: seq<byte>): SniResult {
    if |s| < 3 then Success(None)
    else
      var end := 3 + U16(s[1], s[2]);
      if |s| < end then Failure(TruncatedName)
      else if s[0] == HOST_NAME then Success(Some(s[3..end]))
      else NamesSni(s[end..])
  }

  function ServerNameSni(ext: seq<byte>): SniResult {
    if |ext| < 2 then Failure(MissingList)
    else
      var end := 2 + U16(ext[0], ext[1]);
      if |ext| < end then Failure(TruncatedList) else NamesSni(ext[2..end])
  }

  /** Looks only into the first server_name extension. Fewer than four bytes left over are ignored. */
  function ExtensionsSni(s: seq<byte>): SniResult {
    if |s| < 4 then Success(None)
    else
      var end := 4 + U16(s[2], s[3]);
      if |s| < end then Failure(TruncatedExtension)
      else if U16(s[0], s[1]) == SERVER_NAME then ServerNameSni(s[4..end])
      else ExtensionsSni(s[end..])
  }

  /** From the compression methods on: the methods, then an optional block of extensions. */
  function CompressionSni(s: seq<byte>): SniResult {
    if |s| < 1 then Failure(MissingCompression)
    else
      var i: int := s[0] as int + 1;
      if |s| < i then Failure(InvalidCompression)
      else if |s| == i then Success(None)
      else if |s| < i + 2 then Failure(MissingExtensions)
      else
        var end := i + 2 + U16(s[i], s[i + 1]);
        if |s| < end then Failure(TruncatedExtensions) else ExtensionsSni(s[i + 2..end])
  }

  function CiphersSni(s: seq<byte>): SniResult {
    if |s| < 2 then Failure(MissingCiphers)
    else
      var len := U16(s[0], s[1]);
      if |s| < 2 + len || len % 2 != 0 then Failure(InvalidCiphers) else CompressionSni(s[2 + len..])
  }

  function BodySni(body: seq<byte>): SniResult {
    if |body| < 35 then Failure(BodyTooShort)
    else
      var i: int := body[34] as int + 35;
      if |body| < i then Failure(TruncatedSessionId) else CiphersSni(body[i..])
  }

  /** The server name of a ClientHello message; bytes after the declared body are ignored. */
  function Sni(msg: seq<byte>): SniResult {
    if |msg| < 4 then Failure(TooShort)
    else if msg[0] != CLIENT_HELLO then Failure(NotClientHello)
    else
      var end := 4 + U24(msg[1], msg[2], msg[3]);
      if |msg| < end then Failure(TruncatedBody) else BodySni(msg[4..end])
  }

  // ----- the walker, with its cursors i, j and k

  lemma NextName(ext: seq<byte>, k: nat, end: nat)
    requires k + 3 <= end <= |ext|
    ensures var next := k + 3 + U16(ext[k + 1], ext[k + 2]);
            NamesSni(ext[k..end]) ==
            if next > end then Failure(TruncatedName)
            else if ext[k] == HOST_NAME then Success(Some(ext[k + 3..next]))
            else NamesSni(ext[next..end])
  {
    hide U16;
    var n := U16(ext[k + 1], ext[k + 2]);
    if k + 3 + n <= end {
      SliceOfSlice(ext, k, end, 3, 3 + n);
      SliceOfSlice(ext, k, end, 3 + n, end - k);
    }
  }

  lemma NoName(s: seq<byte>)
    requires |s| < 3
    ensures NamesSni(s) == Success(None)
  {
  }

  lemma NextExtension(body: seq<byte>, j: nat, end: nat)
    requires j + 4 <= end <= |body|
    ensures var next := j + 4 + U16(body[j + 2], body[j + 3]);
            ExtensionsSni(body[j..end]) ==
            if next > end then Failure(TruncatedExtension)
            else if U16(body[j], body[j + 1]) == SERVER_NAME then ServerNameSni(body[j + 4..next])
            else ExtensionsSni(body[next..end])
  {
    hide U16, ServerNameSni;
    var n := U16(body[j + 2], body[j + 3]);
    if j + 4 + n <= end {
      SliceOfSlice(body, j, end, 4, 4 + n);
      SliceOfSlice(body, j, end, 4 + n, end - j);
    }
  }

  lemma NoExtension(s: seq<byte>)
    requires |s| < 4
    ensures ExtensionsSni(s) == Success(None)
  {
  }

  /** The cursor k over the entries of a server-name list. */
  method WalkNames(ext: seq<byte>, listLen: nat) returns (r: SniResult)
    requires 2 + listLen <= |ext|
    ensures r == NamesSni(ext[2..2 + listLen])
  {
    hide NamesSni, U16;
    var k := 2;
    while k + 3 <= 2 + listLen
      invariant 2 <= k <= 2 + listLen
      invariant NamesSni(ext[2..2 + listLen]) == NamesSni(ext[k..2 + listLen])
    {
      NextName(ext, k, 2 + listLen);
      var nameType := ext[k];
      var hostLen := U16(ext[k + 1], ext[k + 2]);
      k := k + 3;
      if k + hostLen > 2 + listLen {
        return Failure(TruncatedName);
      }
      if nameType == HOST_NAME {
        return Success(Some(ext[k..k + hostLen]));
      }
      k := k + hostLen;
    }
    NoName(ext[k..2 + listLen]);
    return Success(None);
  }

  method WalkServerName(ext: seq<byte>) returns (r: SniResult)
    ensures r == ServerNameSni(ext)
  {
    if |ext| < 2 {
      return Failure(MissingList);
    }
    var listLen := U16(ext[0], ext[1]);
    if |ext| < 2 + listLen {
      return Failure(TruncatedList);
    }
    r := WalkNames(ext, listLen);
  }

  /** The cursor j over the extensions block. */
  method WalkExtensions(body: seq<byte>, i: nat, total: nat) returns (r: SniResult)
    requires i + total <= |body|
    ensures r == ExtensionsSni(body[i..i + total])
  {
    hide ExtensionsSni, ServerNameSni, U16;
    var j := i;
    while j + 4 <= i + total
      invariant i <= j <= i + total
      invariant ExtensionsSni(body[i..i + total]) == ExtensionsSni(body[j..i + total])
    {
      NextExtension(body, j, i + total);
      var extType := U16(body[j], body[j + 1]);
      var extLen := U16(body[j + 2], body[j + 3]);
      j := j + 4;
      if j + extLen > i + total {
        return Failure(TruncatedExtension);
      }
      if extType == SERVER_NAME {
        r := WalkServerName(body[j..j + extLen]);
        return;
      }
      j := j + extLen;
    }
    NoExtension(body[j..i + total]);
    return Success(None);
  }

  /** The cursor i over the compression methods and up to the extensions block. */
  method WalkCompression(body: seq<byte>, start: nat) returns (r: SniResult)
    requires start <= |body|
    ensures r == CompressionSni(body[start..])
  {
    hide ExtensionsSni;
    var i := start;
    if |body| < i + 1 {
      return Failure(MissingCompression);
    }
    var methodsLen: int := body[i];
    i := i + 1;
    if |body| < i + methodsLen {
      return Failure(InvalidCompression);
    }
    i := i + methodsLen;
    if i == |body| {
      return Success(None);
    }
    if |body| < i + 2 {
      return Failure(MissingExtensions);
    }
    var total := U16(body[i], body[i + 1]);
    i := i + 2;
    if |body| < i + total {
      return Failure(TruncatedExtensions);
    }
    assert body[start..][i - start..i - start + total] == body[i..i + total];
    r := WalkExtensions(body, i, total);
  }

  /** The cursor i over the cipher suites. */
  method WalkCiphers(body: seq<byte>, start: nat) returns (r: SniResult)
    requires start <= |body|
    ensures r == CiphersSni(body[start..])
  {
    hide CompressionSni, U16;
    var i := start;
    if |body| < i + 2 {
      return Failure(MissingCiphers);
    }
    var ciphersLen := U16(body[i], body[i + 1]);
    i := i + 2;
    if |body| < i + ciphersLen || ciphersLen % 2 != 0 {
      return Failure(InvalidCiphers);
    }
    i := i + ciphersLen;
    assert body[start..][2 + ciphersLen..] == body[i..];
    r := WalkCompression(body, i);
  }

  /** The cursor i over the version, the random bytes and the session id. */
  method WalkBody(body: seq<byte>) returns (r: SniResult)
    ensures r == BodySni(body)
  {
    hide CiphersSni;
    if |body| < 35 {
      return Failure(BodyTooShort);
    }
    var i := 2 + 32;
    var sessionIdLen: int := body[i];
    i := i + 1;
    if |body| < i + sessionIdLen {
      return Failure(TruncatedSessionId);
    }
    i := i + sessionIdLen;
    r := WalkCiphers(body, i);
  }

  method ExtractTlsSni(msg: seq<byte>) returns (r: SniResult)
    ensures r == Sni(msg)
  {
    hide BodySni, U24;
    if |msg| < 4 {
      return Failure(TooShort);
    }
    if msg[0] != CLIENT_HELLO {
      return Failure(NotClientHello);
    }
    var bodyLen := U24(msg[1], msg[2], msg[3]);
    if |msg| < 4 + bodyLen {
      return Failure(TruncatedBody);
    }
    r := WalkBody(msg[4..4 + bodyLen]);
  }

  // ----- the grammar: a ClientHello as its sender lays it out

  function Write16(n: nat): (s: seq<byte>)
    requires n < 0x1_0000
    ensures |s| == 2 && U16(s[0], s[1]) == n
  {
    [n / 256, n % 256]
  }

  /** A server-name entry that is not a host name. */
  datatype Name = Name(nameType: byte, bytes: seq<byte>)

  ghost predicate PlainNames(names: seq<Name>) {
    forall n <- names :: n.nameType != HOST_NAME && |n.bytes| < 0x1_0000
  }

  function WriteName(nameType: byte, bytes: seq<byte>): seq<byte>
    requires |bytes| < 0x1_0000
  {
    [nameType] + Write16(|bytes|) + bytes
  }

  ghost function WriteNames(names: seq<Name>): seq<byte>
    requires PlainNames(names)
  {
    if names == [] then [] else WriteName(names[0].nameType, names[0].bytes) + WriteNames(names[1..])
  }

  /** Entries before the first host name, that host name if there is one, and what follows it. */
  datatype NameList = NameList(before: seq<Name>, host: Option<seq<byte>>, rest: seq<byte>) {

    ghost predicate Valid() {
      PlainNames(before) && if host.Some? then |host.value| < 0x1_0000 else |rest| < 3
    }

    ghost function Write(): seq<byte>
      requires Valid()
    {
      WriteNames(before) + ((if host.Some? then WriteName(0, host.value) else []) + rest)
    }
  }

  /** An extension other than server_name. */
  datatype Extension = Extension(ty: nat, body: seq<byte>)

  ghost predicate OtherExtensions(exts: seq<Extension>) {
    forall e <- exts :: e.ty != SERVER_NAME && e.ty < 0x1_0000 && |e.body| < 0x1_0000
  }

  function WriteExtension(ty: nat, body: seq<byte>): seq<byte>
    requires ty < 0x1_0000 && |body| < 0x1_0000
  {
    Write16(ty) + Write16(|body|) + body
  }

  ghost function WriteExtensions(exts: seq<Extension>): seq<byte>
    requires OtherExtensions(exts)
  {
    if exts == [] then [] else WriteExtension(exts[0].ty, exts[0].body) + WriteExtensions(exts[1..])
  }

  /** A server_name extension: its counted list, and bytes after it. */
  datatype ServerName = ServerName(list: NameList, trailer: seq<byte>) {

    ghost predicate Valid() {
      list.Valid() && 2 + |list.Write()| + |trailer| < 0x1_0000
    }

    ghost function Write(): (s: seq<byte>)
      requires Valid()
      ensures |s| < 0x1_0000
    {
      Write16(|list.Write()|) + list.Write() + trailer
    }
  }

  /** Extensions before the first server_name, that one if there is one, and what follows it. */
  datatype Extensions = Extensions(before: seq<Extension>, serverName: Option<ServerName>, rest: seq<byte>) {

    ghost predicate Valid() {
      OtherExtensions(before) && if serverName.Some? then serverName.value.Valid() else |rest| < 4
    }

    ghost function Write(): seq<byte>
      requires Valid()
    {
      WriteExtensions(before) +
      ((if serverName.Some? then WriteExtension(0, serverName.value.Write()) else []) + rest)
    }

    function Host(): Option<seq<byte>> {
      if serverName.Some? then serverName.value.list.host else None
    }
  }

  datatype Hello = Hello(head: seq<byte>, sessionId: seq<byte>, ciphers: seq<byte>, methods: seq<byte>,
                         extensions: Option<Extensions>, trailer: seq<byte>) {

    ghost predicate Valid() {
      |head| == 34 && |sessionId| < 256 && |ciphers| % 2 == 0 && |ciphers| < 0x1_0000 && |methods| < 256 &&
      (if extensions.Some? then extensions.value.Valid() && |extensions.value.Write()| < 0x1_0000
       else trailer == []) &&
      |WriteBody()| < 0x100_0000
    }

    ghost function WriteBlock(): seq<byte> {
      if extensions.Some? && extensions.value.Valid() && |extensions.value.Write()| < 0x1_0000
      then Write16(|extensions.value.Write()|) + extensions.value.Write() + trailer
      else []
    }

    ghost function WriteBody(): seq<byte>
      requires |sessionId| < 256 && |ciphers| < 0x1_0000 && |methods| < 256
    {
      head + ([|sessionId|] + sessionId +
              (Write16(|ciphers|) + ciphers + ([|methods|] + methods + WriteBlock())))
    }

    ghost function Write(): seq<byte>
      requires Valid()
    {
      [1] + Write24(|WriteBody()|) + WriteBody()
    }

    /** First host name of the first server_name extension. */
    function Host(): Option<seq<byte>> {
      if extensions.Some? then extensions.value.Host() else None
    }
  }

  // ----- every layout is read back

  lemma FirstName(nameType: byte, bytes: seq<byte>, rest: seq<byte>)
    requires |bytes| < 0x1_0000
    ensures NamesSni(WriteName(nameType, bytes) + rest) ==
            if nameType == HOST_NAME then Success(Some(bytes)) else NamesSni(rest)
  {
    var w := WriteName(nameType, bytes);
    assert (w + rest)[3..|w|] == bytes && (w + rest)[|w|..] == rest;
  }

  lemma {:induction false} NamesWritten(before: seq<Name>, tail: seq<byte>)
    requires PlainNames(before)
    ensures NamesSni(WriteNames(before) + tail) == NamesSni(tail)
  {
    hide NamesSni, WriteName;
    if before == [] {
      assert WriteNames(before) + tail == tail;
    } else {
      var w := WriteName(before[0].nameType, before[0].bytes);
      assert WriteNames(before) + tail == w + (WriteNames(before[1..]) + tail);
      FirstName(before[0].nameType, before[0].bytes, WriteNames(before[1..]) + tail);
      NamesWritten(before[1..], tail);
    }
  }

  lemma ListWritten(list: NameList)
    requires list.Valid()
    ensures NamesSni(list.Write()) == Success(list.host)
  {
    hide WriteNames, WriteName;
    var tail := (if list.host.Some? then WriteName(0, list.host.value) else []) + list.rest;
    NamesWritten(list.before, tail);
    if list.host.Some? {
      FirstName(0, list.host.value, list.rest);
    }
  }

  lemma ServerNameWritten(sn: ServerName)
    requires sn.Valid()
    ensures ServerNameSni(sn.Write()) == Success(sn.list.host)
  {
    hide NamesSni, NameList.Write;
    ListWritten(sn.list);
    assert sn.Write()[2..2 + |sn.list.Write()|] == sn.list.Write();
  }

  lemma FirstExtension(ty: nat, body: seq<byte>, rest: seq<byte>)
    requires ty < 0x1_0000 && |body| < 0x1_0000
    ensures ExtensionsSni(WriteExtension(ty, body) + rest) ==
            if ty == SERVER_NAME then ServerNameSni(body) else ExtensionsSni(rest)
  {
    hide ServerNameSni;
    var w := WriteExtension(ty, body);
    assert (w + rest)[4..|w|] == body && (w + rest)[|w|..] == rest;
  }

  lemma {:induction false} OthersWritten(before: seq<Extension>, tail: seq<byte>)
    requires OtherExtensions(before)
    ensures ExtensionsSni(WriteExtensions(before) + tail) == ExtensionsSni(tail)
  {
    hide ExtensionsSni, WriteExtension;
    if before == [] {
      assert WriteExtensions(before) + tail == tail;
    } else {
      var w := WriteExtension(before[0].ty, before[0].body);
      assert WriteExtensions(before) + tail == w + (WriteExtensions(before[1..]) + tail);
      FirstExtension(before[0].ty, before[0].body, WriteExtensions(before[1..]) + tail);
      OthersWritten(before[1..], tail);
    }
  }

  lemma ExtensionsWritten(exts: Extensions)
    requires exts.Valid()
    ensures ExtensionsSni(exts.Write()) == Success(exts.Host())
  {
    hide ServerNameSni, WriteExtensions, WriteExtension, ServerName.Write;
    var tail := (if exts.serverName.Some? then WriteExtension(0, exts.serverName.value.Write()) else []) + exts.rest;
    OthersWritten(exts.before, tail);
    if exts.serverName.Some? {
      FirstExtension(0, exts.serverName.value.Write(), exts.rest);
      ServerNameWritten(exts.serverName.value);
    }
  }

  lemma CompressionWritten(h: Hello)
    requires h.Valid()
    ensures CompressionSni([|h.methods|] + h.methods + h.WriteBlock()) == Success(h.Host())
  {
    hide ExtensionsSni, Extensions.Write;
    var s := [|h.methods|] + h.methods + h.WriteBlock();
    var i := 1 + |h.methods|;
    if h.extensions.Some? {
      var w := h.extensions.value.Write();
      assert s[i] == Write16(|w|)[0] && s[i + 1] == Write16(|w|)[1];
      assert s[i + 2..i + 2 + |w|] == w;
      ExtensionsWritten(h.extensions.value);
    }
  }

  lemma CiphersWritten(ciphers: seq<byte>, rest: seq<byte>)
    requires |ciphers| < 0x1_0000 && |ciphers| % 2 == 0
    ensures CiphersSni(Write16(|ciphers|) + ciphers + rest) == CompressionSni(rest)
  {
    hide CompressionSni, Write16;
    AfterPrefix(Write16(|ciphers|) + ciphers, rest);
  }

  lemma BodyWritten(h: Hello)
    requires h.Valid()
    ensures BodySni(h.WriteBody()) == Success(h.Host())
  {
    hide CompressionSni, CiphersSni, Extensions.Write, Hello.WriteBlock, Write16;
    var s2 := [|h.methods|] + h.methods + h.WriteBlock();
    var s1 := Write16(|h.ciphers|) + h.ciphers + s2;
    var before := h.head + [|h.sessionId|] + h.sessionId;
    assert h.WriteBody() == before + s1;
    AfterPrefix(before, s1);
    CiphersWritten(h.ciphers, s2);
    CompressionWritten(h);
  }

  /** The extractor returns the first host name of the first server_name extension, or None. */
  lemma ReadsWritten(h: Hello, rest: seq<byte>)
    requires h.Valid()
    ensures Sni(h.Write() + rest) == Success(h.Host())
  {
    hide BodySni, Hello.WriteBody, Write24;
    var msg := h.Write() + rest;
    var n := |h.WriteBody()|;
    assert msg[1..4] == Write24(n);
    assert msg[4..4 + n] == h.WriteBody();
    BodyWritten(h);
  }

  // ----- and nothing else is accepted

  lemma NameRead(s: seq<byte>, end: nat)
    requires |s| >= 3 && end == 3 + U16(s[1], s[2]) <= |s|
    ensures s == WriteName(s[0], s[3..end]) + s[end..]
  {
    assert WriteName(s[0], s[3..end]) == s[..end];
  }

  lemma {:induction false} NamesRead(s: seq<byte>) returns (list: NameList)
    requires NamesSni(s).Success?
    ensures list.Valid() && list.Write() == s && list.host == NamesSni(s).value
  {
    hide WriteName;
    if |s| < 3 {
      list := NameList([], None, s);
    } else {
      var end := 3 + U16(s[1], s[2]);
      NameRead(s, end);
      if s[0] == HOST_NAME {
        list := NameList([], Some(s[3..end]), s[end..]);
      } else {
        var rest := NamesRead(s[end..]);
        list := NameList([Name(s[0], s[3..end])] + rest.before, rest.host, rest.rest);
        assert list.before[1..] == rest.before;
      }
    }
  }

  lemma ServerNameRead(ext: seq<byte>) returns (sn: ServerName)
    requires ServerNameSni(ext).Success? && |ext| < 0x1_0000
    ensures sn.Valid() && sn.Write() == ext && sn.list.host == ServerNameSni(ext).value
  {
    hide NamesSni, NameList.Write;
    var end := 2 + U16(ext[0], ext[1]);
    var list := NamesRead(ext[2..end]);
    sn := ServerName(list, ext[end..]);
    assert Write16(end - 2) == ext[..2];
    assert ext == ext[..2] + ext[2..end] + ext[end..];
  }

  lemma ExtensionRead(s: seq<byte>, end: nat)
    requires |s| >= 4 && end == 4 + U16(s[2], s[3]) <= |s|
    ensures s == WriteExtension(U16(s[0], s[1]), s[4..end]) + s[end..]
  {
    assert WriteExtension(U16(s[0], s[1]), s[4..end]) == s[..end];
  }

  lemma {:induction false} ExtensionsRead(s: seq<byte>) returns (exts: Extensions)
    requires ExtensionsSni(s).Success?
    ensures exts.Valid() && exts.Write() == s && exts.Host() == ExtensionsSni(s).value
  {
    hide ServerNameSni, ServerName.Write, WriteExtension;
    if |s| < 4 {
      exts := Extensions([], None, s);
    } else {
      var end := 4 + U16(s[2], s[3]);
      var ty := U16(s[0], s[1]);
      ExtensionRead(s, end);
      if ty == SERVER_NAME {
        var sn := ServerNameRead(s[4..end]);
        exts := Extensions([], Some(sn), s[end..]);
      } else {
        var rest := ExtensionsRead(s[end..]);
        exts := Extensions([Extension(ty, s[4..end])] + rest.before, rest.serverName, rest.rest);
        assert exts.before[1..] == rest.before;
      }
    }
  }

  lemma JoinFive(s: seq<byte>, a: nat, b: nat, c: nat, d: nat)
    requires a <= b <= c <= d <= |s|
    ensures s == s[..a] + s[a..b] + (s[b..c] + s[c..d] + s[d..])
  {
  }

  lemma CompressionRead(s: seq<byte>) returns (methods: seq<byte>, exts: Option<Extensions>, trailer: seq<byte>)
    requires CompressionSni(s).Success?
    ensures |methods| < 256
    ensures exts.Some? ==> exts.value.Valid() && |exts.value.Write()| < 0x1_0000
    ensures exts.None? ==> trailer == [] && s == [|methods|] + methods && CompressionSni(s).value == None
    ensures exts.Some? ==>
              s == [|methods|] + methods + (Write16(|exts.value.Write()|) + exts.value.Write() + trailer) &&
              CompressionSni(s).value == exts.value.Host()
  {
    hide ExtensionsSni, Extensions.Write, Extensions.Valid, Extensions.Host;
    var i: int := s[0] as int + 1;
    methods := s[1..i];
    if |s| == i {
      exts, trailer := None, [];
    } else {
      var end := i + 2 + U16(s[i], s[i + 1]);
      var e := ExtensionsRead(s[i + 2..end]);
      exts, trailer := Some(e), s[end..];
      assert Write16(|e.Write()|) == s[i..i + 2];
      JoinFive(s, 1, i, i + 2, end);
    }
  }

  lemma CiphersRead(s: seq<byte>) returns (ciphers: seq<byte>, rest: seq<byte>)
    requires CiphersSni(s).Success?
    ensures |ciphers| < 0x1_0000 && |ciphers| % 2 == 0
    ensures s == Write16(|ciphers|) + ciphers + rest && CiphersSni(s) == CompressionSni(rest)
  {
    hide CompressionSni;
    var end := 2 + U16(s[0], s[1]);
    ciphers, rest := s[2..end], s[end..];
    assert Write16(|ciphers|) == s[..2];
    assert s == s[..2] + s[2..end] + s[end..];
  }

  lemma BodyRead(body: seq<byte>) returns (h: Hello)
    requires BodySni(body).Success? && |body| < 0x100_0000
    ensures h.Valid() && h.WriteBody() == body && h.Host() == BodySni(body).value
  {
    hide CiphersSni, CompressionSni, Extensions.Write, Extensions.Valid, Extensions.Host, Write16;
    var i: int := body[34] as int + 35;
    var ciphers, rest := CiphersRead(body[i..]);
    var methods, exts, trailer := CompressionRead(rest);
    h := Hello(body[..34], body[35..i], ciphers, methods, exts, trailer);
    assert rest == [|methods|] + methods + h.WriteBlock();
    assert body == body[..34] + ([body[34]] + body[35..i] + body[i..]);
  }

  lemma ReadIsWritten(msg: seq<byte>) returns (h: Hello)
    requires Sni(msg).Success?
    ensures h.Valid() && h.Write() <= msg && h.Host() == Sni(msg).value
  {
    hide BodySni, Hello.WriteBody, Hello.WriteBlock, Hello.Host, Extensions.Valid, Extensions.Write, Write24, U24;
    var end := 4 + U24(msg[1], msg[2], msg[3]);
    Write24Read(msg[1], msg[2], msg[3]);
    h := BodyRead(msg[4..end]);
    assert h.Write() == msg[..end];
  }

  ghost predicate Begins(h: Hello, msg: seq<byte>) {
    h.Valid() && h.Write() <= msg
  }

  /** A message is accepted exactly when it begins with some layout, and its answer is that layout's. */
  lemma Grammar(msg: seq<byte>)
    ensures Sni(msg).Success? <==> exists h :: Begins(h, msg)
    ensures forall h :: Begins(h, msg) ==> Sni(msg) == Success(h.Host())
  {
    hide Sni, Hello.Write, Hello.Valid, Hello.Host;
    if Sni(msg).Success? {
      var h := ReadIsWritten(msg);
      assert Begins(h, msg);
    }
    forall h | Begins(h, msg) ensures Sni(msg) == Success(h.Host()) {
      assert msg == h.Write() + msg[|h.Write()|..];
      ReadsWritten(h, msg[|h.Write()|..]);
    }
  }
}
