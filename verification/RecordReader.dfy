/**
 Collecting a ClientHello from TLS records (section 5.1 of RFC 8446), when part of the byte stream
 may have been read already by whoever handed the socket over.
 */
module RecordReader {
  import opened Wrappers
  import opened Bytes

  const HEADER_LEN: nat := 5
  const HANDSHAKE: int := 22
  const CLIENT_HELLO: int := 1

  datatype RecordError = NotHandshake(contentType: byte) | EmptyRecord | NotClientHello(messageType: byte)

  /** The stream ended inside a record. */
  datatype Cut = InHeader | InPayload

  type Collected = Result<Result<seq<byte>, RecordError>, Cut>

  /** What a byte stream holds, and how many of its bytes decide that (not counted when it is cut short). */
  datatype Scanned = Scanned(outcome: Collected, used: nat)

  /** Length of the handshake message, once its four-byte header is there. */
  function Needed(hello: seq<byte>): Option<nat> {
    if |hello| < 4 then None else Some(4 + U24(hello[1], hello[2], hello[3]))
  }

  predicate Complete(hello: seq<byte>) {
    Needed(hello).Some? && |hello| >= Needed(hello).value
  }

  /** One record: its payload and its length on the wire, or the reason to stop at it. */
  datatype Record = Stop(scanned: Scanned) | Payload(data: seq<byte>, end: nat)

  function FirstRecord(s: seq<byte>): (r: Record)
    ensures r.Stop? ==> r.scanned.used <= |s| && (r.scanned.outcome.Success? ==> r.scanned.outcome.value.Failure?)
    ensures r.Payload? ==> HEADER_LEN < r.end <= |s| && r.data == s[HEADER_LEN..r.end]
  {
    if |s| < HEADER_LEN then Stop(Scanned(Failure(InHeader), 0))
    else
      var end := HEADER_LEN + U16(s[3], s[4]);
      if s[0] != HANDSHAKE then Stop(Scanned(Success(Failure(NotHandshake(s[0]))), HEADER_LEN))
      else if end == HEADER_LEN then Stop(Scanned(Success(Failure(EmptyRecord)), HEADER_LEN))
      else if |s| < end then Stop(Scanned(Failure(InPayload), 0))
      else Payload(s[HEADER_LEN..end], end)
  }

  /** Reads records from s on top of the handshake bytes collected so far. */
  function Scan(s: seq<byte>, hello: seq<byte>): (r: Scanned)
    ensures r.used <= |s|
    decreases |s|
  {
    match FirstRecord(s)
    case Stop(scanned) => scanned
    case Payload(data, end) =>
      var more := hello + data;
      if |more| >= 4 && more[0] != CLIENT_HELLO then Scanned(Success(Failure(NotClientHello(more[0]))), end)
      else if Complete(more) then Scanned(Success(Success(more[..Needed(more).value])), end)
      else Later(end, Scan(s[end..], more))
  }

  function Later(start: nat, r: Scanned): Scanned {
    Scanned(r.outcome, start + r.used)
  }

  /** A socket: the bytes not read from it yet, then end of stream. */
  class Stream {
    var unread: seq<byte>

    constructor (data: seq<byte>)
      ensures unread == data
    {
      unread := data;
    }

    /** Reads exactly n bytes, or fails having drained what there was. */
    method ReadExact(n: nat) returns (r: Option<seq<byte>>)
      modifies this
      ensures r.Some? <==> n <= |old(unread)|
      ensures r.Some? ==> r.value == old(unread)[..n] && unread == old(unread)[n..]
      ensures r.None? ==> unread == []
    {
      if n <= |unread| {
        r := Some(unread[..n]);
        unread := unread[n..];
      } else {
        r := None;
        unread := [];
      }
    }
  }

  /** Reads just enough for `bytes` to be `len` long; on failure gives `bytes` back as they were. */
  method EnsureBytesAvailable(stream: Stream, bytes: seq<byte>, len: nat) returns (ok: bool, r: seq<byte>)
    modifies stream
    ensures ok <==> len <= |bytes| + |old(stream.unread)|
    ensures ok ==> r + stream.unread == bytes + old(stream.unread)
    ensures ok ==> |r| == if len <= |bytes| then |bytes| else len
    ensures !ok ==> r == bytes && stream.unread == []
  {
    if |bytes| >= len {
      return true, bytes;
    }
    var more := stream.ReadExact(len - |bytes|);
    if more.None? {
      return false, bytes;
    }
    assert old(stream.unread) == more.value + stream.unread;
    assert bytes + (more.value + stream.unread) == (bytes + more.value) + stream.unread;
    return true, bytes + more.value;
  }

  function Max(a: nat, b: nat): nat {
    if a < b then b else a
  }

  lemma PrefixSlice(total: seq<byte>, kept: seq<byte>, pos: nat, a: nat, b: nat)
    requires kept <= total && a <= b && pos + b <= |kept|
    ensures kept[pos + a..pos + b] == total[pos..][a..b]
  {
    SliceOfSlice(total, pos, |total|, a, b);
    assert total[pos..|total|] == total[pos..];
  }

  /** Reads the record that starts at `pos` of the whole stream. */
  method ReadRecord(stream: Stream, bytes: seq<byte>, pos: nat) returns (r: Record, kept: seq<byte>)
    requires pos <= |bytes|
    modifies stream
    ensures var total := bytes + old(stream.unread);
            r == FirstRecord(total[pos..]) &&
            ((r.Stop? && r.scanned.outcome.Failure?) ||
             (kept + stream.unread == total &&
              |kept| == Max(|bytes|, pos + if r.Stop? then r.scanned.used else r.end)))
  {
    hide U16;
    ghost var total := bytes + old(stream.unread);
    ghost var s := total[pos..];
    var ok;
    ok, kept := EnsureBytesAvailable(stream, bytes, pos + HEADER_LEN);
    if !ok {
      return Stop(Scanned(Failure(InHeader), 0)), kept;
    }
    assert kept == total[..|kept|];
    PrefixSlice(total, kept, pos, 0, HEADER_LEN);
    var contentType := kept[pos];
    var end := HEADER_LEN + U16(kept[pos + 3], kept[pos + 4]);
    if contentType != HANDSHAKE {
      return Stop(Scanned(Success(Failure(NotHandshake(contentType))), HEADER_LEN)), kept;
    }
    if end == HEADER_LEN {
      return Stop(Scanned(Success(Failure(EmptyRecord)), HEADER_LEN)), kept;
    }
    ok, kept := EnsureBytesAvailable(stream, kept, pos + end);
    if !ok {
      return Stop(Scanned(Failure(InPayload), 0)), kept;
    }
    assert kept == total[..|kept|];
    PrefixSlice(total, kept, pos, HEADER_LEN, end);
    return Payload(kept[pos + HEADER_LEN..pos + end], end), kept;
  }

  /** Scanning from a position goes by the record there. */
  lemma ScanFirst(total: seq<byte>, pos: nat, hello: seq<byte>)
    requires pos <= |total|
    ensures Scan(total[pos..], hello) ==
            var r := FirstRecord(total[pos..]);
            if r.Stop? then r.scanned
            else
              var more := hello + r.data;
              if |more| >= 4 && more[0] != CLIENT_HELLO then Scanned(Success(Failure(NotClientHello(more[0]))), r.end)
              else if Complete(more) then Scanned(Success(Success(more[..Needed(more).value])), r.end)
              else Later(r.end, Scan(total[pos + r.end..], more))
  {
    hide FirstRecord, Complete, Needed;
    var record := FirstRecord(total[pos..]);
    if record.Payload? {
      assert total[pos..][record.end..] == total[pos + record.end..];
    }
  }

  /**
   Reads a ClientHello. The answer depends only on the whole byte stream, not on where it was cut
   into bytes handed over and bytes on the socket; the bytes kept, followed by those left on the
   socket, are the whole stream; and nothing is read beyond the bytes that decide the answer.
   */
  method ReadTlsClientHello(stream: Stream, initial: seq<byte>)
    returns (r: Result<(seq<byte>, Result<seq<byte>, RecordError>), Cut>)
    modifies stream
    ensures var scan := Scan(initial + old(stream.unread), []);
            match r
            case Failure(cut) => scan.outcome == Failure(cut)
            case Success((kept, answer)) =>
              scan.outcome == Success(answer) &&
              kept + stream.unread == initial + old(stream.unread) &&
              |kept| == Max(|initial|, scan.used)
  {
    hide FirstRecord, Scan, U24;
    ghost var total := initial + old(stream.unread);
    var hello: seq<byte> := [];
    var bytes := initial;
    var pos := 0;
    var needed: Option<nat> := None;
    assert total[0..] == total;
    while needed.None? || |hello| < needed.value
      invariant bytes + stream.unread == total
      invariant pos <= |bytes| && |bytes| == Max(|initial|, pos)
      invariant needed == Needed(hello)
      invariant needed.Some? ==> hello[0] == CLIENT_HELLO
      invariant Scan(total, []) == if Complete(hello) then Scanned(Success(Success(hello[..needed.value])), pos)
                                   else Later(pos, Scan(total[pos..], hello))
      decreases |total| - pos
    {
      var record;
      record, bytes := ReadRecord(stream, bytes, pos);
      ScanFirst(total, pos, hello);
      if record.Stop? {
        match record.scanned.outcome
        case Failure(cut) => return Failure(cut);
        case Success(answer) => return Success((bytes, answer));
      }
      hello := hello + record.data;
      pos := pos + record.end;
      if needed.None? {
        if |hello| < 4 {
          continue;
        }
        if hello[0] != CLIENT_HELLO {
          return Success((bytes, Failure(NotClientHello(hello[0]))));
        }
        needed := Some(4 + U24(hello[1], hello[2], hello[3]));
      }
    }
    var n := needed.value;
    if |hello| > n {
      hello := hello[..n];
    }
    assert hello == hello[..n];
    return Success((bytes, Success(hello)));
  }

  // ----- the grammar: a ClientHello cut into records in any way

  datatype Wire = Wire(version: (byte, byte), payload: seq<byte>) {

    ghost predicate Valid() {
      1 <= |payload| < 0x1_0000
    }

    ghost function Write(): seq<byte>
      requires Valid()
    {
      [22, version.0, version.1, |payload| / 256, |payload| % 256] + payload
    }
  }

  ghost predicate AllValid(records: seq<Wire>) {
    forall w <- records :: w.Valid()
  }

  ghost function Write(records: seq<Wire>): seq<byte>
    requires AllValid(records)
  {
    if records == [] then [] else records[0].Write() + Write(records[1..])
  }

  ghost function Payloads(records: seq<Wire>): seq<byte> {
    if records == [] then [] else records[0].payload + Payloads(records[1..])
  }

  ghost predicate IsHello(msg: seq<byte>) {
    |msg| >= 4 && msg[0] == 1 && |msg| == 4 + U24(msg[1], msg[2], msg[3])
  }

  /** The records, on top of `hello`, hold the message, and the last of them is needed for it. */
  ghost predicate Carries(records: seq<Wire>, hello: seq<byte>, msg: seq<byte>) {
    AllValid(records) && records != [] && msg <= hello + Payloads(records) &&
    |hello| + |Payloads(records[..|records| - 1])| < |msg|
  }

  lemma FirstWritten(w: Wire, rest: seq<byte>)
    requires w.Valid()
    ensures FirstRecord(w.Write() + rest) == Payload(w.payload, |w.Write()|)
    ensures (w.Write() + rest)[|w.Write()|..] == rest
  {
    var s := w.Write() + rest;
    assert s[HEADER_LEN..HEADER_LEN + |w.payload|] == w.payload;
  }

  lemma LastOfCarried(w: Wire, hello: seq<byte>, msg: seq<byte>)
    requires IsHello(msg) && Carries([w], hello, msg)
    ensures var more := hello + w.payload;
            Complete(more) && more[0] == CLIENT_HELLO && Needed(more) == Some(|msg|) && more[..|msg|] == msg
  {
    hide U24;
    assert Payloads([w]) == w.payload by {
      assert [w][1..] == [];
    }
    assert (hello + w.payload)[..|msg|] == msg;
  }

  lemma RestOfCarried(records: seq<Wire>, hello: seq<byte>, msg: seq<byte>)
    requires |records| > 1 && IsHello(msg) && Carries(records, hello, msg)
    ensures var more := hello + records[0].payload;
            Carries(records[1..], more, msg) && !Complete(more) && (|more| >= 4 ==> more[0] == CLIENT_HELLO)
  {
    hide U24, Wire.Valid;
    var more := hello + records[0].payload;
    assert records[..|records| - 1][1..] == records[1..][..|records| - 2];
    assert hello + Payloads(records) == more + Payloads(records[1..]);
    assert |more| < |msg| && more == msg[..|more|];
  }

  lemma ScanWritten(w: Wire, tail: seq<byte>, hello: seq<byte>)
    requires w.Valid()
    ensures var more := hello + w.payload;
            Scan(w.Write() + tail, hello) ==
            if |more| >= 4 && more[0] != CLIENT_HELLO then Scanned(Success(Failure(NotClientHello(more[0]))), |w.Write()|)
            else if Complete(more) then Scanned(Success(Success(more[..Needed(more).value])), |w.Write()|)
            else Later(|w.Write()|, Scan(tail, more))
  {
    hide FirstRecord, Wire.Write, Wire.Valid, Complete, Needed;
    FirstWritten(w, tail);
  }

  lemma WriteSplits(records: seq<Wire>, rest: seq<byte>)
    requires AllValid(records) && records != []
    ensures AllValid(records[1..]) && records[0].Valid()
    ensures Write(records) + rest == records[0].Write() + (Write(records[1..]) + rest)
    ensures |Write(records)| == |records[0].Write()| + |Write(records[1..])|
  {
    hide Wire.Write, Wire.Valid;
  }

  /** Cutting a ClientHello into non-empty records, however finely, does not change what is read. */
  lemma {:induction false} AnyFragmentation(records: seq<Wire>, hello: seq<byte>, msg: seq<byte>, rest: seq<byte>)
    requires IsHello(msg) && Carries(records, hello, msg)
    ensures Scan(Write(records) + rest, hello) == Scanned(Success(Success(msg)), |Write(records)|)
    decreases |records|
  {
    assert AllValid(records) && records != [];
    WriteSplits(records, rest);
    var w, tail := records[0], Write(records[1..]) + rest;
    hide Scan, Write, Wire.Write, Wire.Valid, AllValid, Carries, Complete, Needed, IsHello;
    ScanWritten(w, tail, hello);
    if |records| == 1 {
      assert records == [w];
      LastOfCarried(w, hello, msg);
      assert Write(records[1..]) == [] by {
        WriteNone();
      }
    } else {
      RestOfCarried(records, hello, msg);
      AnyFragmentation(records[1..], hello + w.payload, msg, rest);
    }
  }

  lemma WriteNone()
    ensures AllValid([]) && Write([]) == []
  {
  }

  lemma FirstRead(s: seq<byte>) returns (w: Wire)
    requires FirstRecord(s).Payload?
    ensures w.Valid() && w.payload == FirstRecord(s).data && w.Write() == s[..FirstRecord(s).end]
  {
    w := Wire((s[1], s[2]), FirstRecord(s).data);
    assert |w.payload| / 256 == s[3] && |w.payload| % 256 == s[4];
  }

  lemma OneRecord(w: Wire)
    requires w.Valid()
    ensures AllValid([w]) && Payloads([w]) == w.payload && Write([w]) == w.Write()
    ensures Payloads([w][..0]) == []
  {
    hide Wire.Write, Wire.Valid;
    assert [w][1..] == [];
  }

  lemma CarriesMore(w: Wire, rest: seq<Wire>, hello: seq<byte>, msg: seq<byte>)
    requires w.Valid() && Carries(rest, hello + w.payload, msg)
    ensures Carries([w] + rest, hello, msg)
    ensures Write([w] + rest) == w.Write() + Write(rest)
  {
    hide Wire.Write, Wire.Valid;
    var records := [w] + rest;
    assert records[1..] == rest;
    assert records[..|records| - 1] == [w] + rest[..|rest| - 1];
    assert records[..|records| - 1][1..] == rest[..|rest| - 1];
    assert hello + (w.payload + Payloads(rest)) == hello + w.payload + Payloads(rest);
  }

  /** Conversely, whatever is read was carried, and ended, by exactly the records consumed. */
  lemma {:induction false} OnlyFragmentations(s: seq<byte>, hello: seq<byte>) returns (records: seq<Wire>)
    requires !Complete(hello)
    requires |hello| >= 4 ==> hello[0] == CLIENT_HELLO
    requires Scan(s, hello).outcome.Success? && Scan(s, hello).outcome.value.Success?
    ensures var msg := Scan(s, hello).outcome.value.value;
            IsHello(msg) && Carries(records, hello, msg) && Write(records) == s[..Scan(s, hello).used]
    decreases |s|
  {
    hide FirstRecord, U24, Wire.Write;
    var w := FirstRead(s);
    var Payload(data, end) := FirstRecord(s);
    var more := hello + data;
    if Complete(more) {
      records := [w];
      OneRecord(w);
    } else {
      var rest := OnlyFragmentations(s[end..], more);
      records := [w] + rest;
      CarriesMore(w, rest, hello, Scan(s, hello).outcome.value.value);
      JoinSlices(s, end, Scan(s[end..], more).used);
    }
  }
}
