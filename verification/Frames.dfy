/**
 Frames of an Initial packet (section 12.4 and sections 19.1 to 19.6 and 19.19 of RFC 9000).
 Only the CRYPTO frames are kept; the others are walked over.
 */
module Frames {
  import opened Wrappers
  import opened Bytes
  import V = Varint

  datatype Error = BadVarint | TruncatedCrypto | TruncatedReason | UnexpectedFrame

  /** A CRYPTO frame's place in the stream and its bytes. */
  datatype Chunk = Chunk(offset: nat, data: seq<byte>)

  function Read(s: seq<byte>): (r: Result<(nat, nat), Error>)
    ensures r.Success? ==> 1 <= r.value.1 <= |s|
  {
    match V.Read(s)
    case Success(v) => Success(v)
    case Failure(_) => Failure(BadVarint)
  }

  /** Bytes taken by k varints in a row. */
  function Skip(s: seq<byte>, k: nat): (r: Result<nat, Error>)
    ensures r.Success? ==> k <= r.value <= |s|
    decreases k
  {
    if k == 0 then Success(0)
    else
      var (_, n) :- Read(s);
      var m :- Skip(s[n..], k - 1);
      Success(n + m)
  }

  /** Body of an ACK frame: the third varint counts the ranges that follow the fourth. */
  function SkipAck(s: seq<byte>, hasEcn: bool): (r: Result<nat, Error>)
    ensures r.Success? ==> r.value <= |s|
  {
    var start :- Skip(s, 2);
    var (count, n) :- Read(s[start..]);
    var tail :- Skip(s[start + n..], 1 + 2 * count + if hasEcn then 3 else 0);
    Success(start + n + tail)
  }

  /** Body of a CONNECTION_CLOSE frame: some codes, then a counted reason phrase. */
  function SkipClose(s: seq<byte>, codes: nat): (r: Result<nat, Error>)
    ensures r.Success? ==> r.value <= |s|
  {
    var start :- Skip(s, codes);
    var (len, n) :- Read(s[start..]);
    if |s| < start + n + len then Failure(TruncatedReason) else Success(start + n + len)
  }

  function ReadCrypto(s: seq<byte>): (r: Result<(Chunk, nat), Error>)
    ensures r.Success? ==> r.value.1 <= |s|
  {
    var (offset, n) :- Read(s);
    var (len, m) :- Read(s[n..]);
    if |s| < n + m + len then Failure(TruncatedCrypto)
    else Success((Chunk(offset, s[n + m..n + m + len]), n + m + len))
  }

  /** What follows the type of a frame: its chunk, if it is a CRYPTO frame, and the length of this part. */
  function ReadBody(ty: nat, body: seq<byte>): (r: Result<(seq<Chunk>, nat), Error>)
    ensures r.Success? ==> r.value.1 <= |body|
  {
    if ty == 0 || ty == 1 then Success(([], 0))
    else if ty == 2 || ty == 3 then
      var m :- SkipAck(body, ty == 3);
      Success(([], m))
    else if ty == 6 then
      var (chunk, m) :- ReadCrypto(body);
      Success(([chunk], m))
    else if ty == 0x1c then
      var m :- SkipClose(body, 2);
      Success(([], m))
    else if ty == 0x1d then
      var m :- SkipClose(body, 1);
      Success(([], m))
    else Failure(UnexpectedFrame)
  }

  /** The frame at the start of s: its chunk, if it is a CRYPTO frame, and its length. */
  function ReadFrame(s: seq<byte>): (r: Result<(seq<Chunk>, nat), Error>)
    ensures r.Success? ==> 1 <= r.value.1 <= |s|
  {
    var (ty, n) :- Read(s);
    var (chunks, m) :- ReadBody(ty, s[n..]);
    Success((chunks, n + m))
  }

  /** Every CRYPTO chunk of a payload, in order. */
  function Crypto(s: seq<byte>): Result<seq<Chunk>, Error> {
    if s == [] then Success([])
    else
      var (first, n) :- ReadFrame(s);
      var rest :- Crypto(s[n..]);
      Success(first + rest)
  }

  // ----- the cursor loops of the program, proved to compute the functions above

  method ReadAt(payload: seq<byte>, i: nat) returns (r: Result<(nat, nat), Error>)
    requires i <= |payload|
    ensures r == Read(payload[i..])
  {
    var v := V.ReadAt(payload, i);
    r := match v case Success(x) => Success(x) case Failure(_) => Failure(BadVarint);
  }

  /** A length counted from n bytes earlier. */
  function Shift(n: nat, r: Result<nat, Error>): Result<nat, Error> {
    match r
    case Success(m) => Success(n + m)
    case Failure(e) => Failure(e)
  }

  lemma SkipFirst(s: seq<byte>, k: nat)
    requires k > 0
    ensures Skip(s, k).Success? ==> Read(s).Success?
    ensures Read(s).Success? ==> Skip(s, k) == Shift(Read(s).value.1, Skip(s[Read(s).value.1..], k - 1))
  {
    hide Read;
  }

  lemma {:induction false} SkipMore(s: seq<byte>, k: nat, j: nat)
    requires Skip(s, k).Success?
    ensures Skip(s, k + j) == Shift(Skip(s, k).value, Skip(s[Skip(s, k).value..], j))
    decreases k
  {
    hide Read, Skip;
    if k == 0 {
      SkipNone(s);
      assert s[0..] == s;
      ShiftByNone(Skip(s, j));
    } else {
      SkipFirst(s, k);
      SkipFirst(s, k + j);
      var n := Read(s).value.1;
      var rest := s[n..];
      SkipMore(rest, k - 1, j);
      var m := Skip(rest, k - 1).value;
      assert rest[m..] == s[n + m..];
      assert Skip(rest, k - 1 + j) == Shift(m, Skip(rest[m..], j));
      ShiftTwice(n, m, Skip(rest[m..], j));
    }
  }

  lemma ShiftByNone(r: Result<nat, Error>)
    ensures Shift(0, r) == r
  {
  }

  lemma ShiftTwice(n: nat, m: nat, r: Result<nat, Error>)
    ensures Shift(n, Shift(m, r)) == Shift(n + m, r)
  {
  }

  /** Once a run of varints fails, every longer run fails in the same way. */
  lemma {:induction false} SkipFailed(s: seq<byte>, k: nat, j: nat)
    requires Skip(s, k).Failure?
    ensures Skip(s, k + j) == Skip(s, k)
  {
    hide Read;
    if k > 0 {
      var first := Read(s);
      if first.Success? {
        SkipFailed(s[first.value.1..], k - 1, j);
      }
    }
  }

  lemma SkipNone(s: seq<byte>)
    ensures Skip(s, 0) == Success(0)
  {
  }

  /** Reads one more varint of a run that has reached the cursor i. */
  method Advance(payload: seq<byte>, ghost start: nat, i: nat, ghost k: nat) returns (r: Result<nat, Error>)
    requires start <= i <= |payload|
    requires Skip(payload[start..], k) == Success(i - start)
    ensures r.Success? ==> i < r.value <= |payload|
    ensures r.Success? ==> Skip(payload[start..], k + 1) == Success(r.value - start)
    ensures r.Failure? ==> Skip(payload[start..], k + 1) == Failure(r.error)
  {
    hide Read;
    var v := ReadAt(payload, i);
    SkipMore(payload[start..], k, 1);
    assert payload[start..][i - start..] == payload[i..];
    if v.Success? {
      var n := v.value.1;
      assert Skip(payload[i..], 1) == Success(n) by {
        assert Skip(payload[i..][n..], 0) == Success(0);
      }
    }
    r := match v case Success((_, n)) => Success(i + n) case Failure(e) => Failure(e);
  }

  function Moved(r: Result<nat, Error>, i: nat): Result<nat, Error> {
    match r
    case Success(n) => Success(i + n)
    case Failure(e) => Failure(e)
  }

  /** The range loop of an ACK frame: each turn eats at least two bytes. */
  method SkipRanges(payload: seq<byte>, from: nat, count: nat) returns (r: Result<nat, Error>, turns: nat)
    requires from <= |payload|
    ensures r == Moved(Skip(payload[from..], 1 + 2 * count), from)
    ensures r.Success? ==> r.value <= |payload|
    ensures 2 * turns <= |payload| - from
  {
    hide Skip, Read;
    ghost var s := payload[from..];
    turns := 0;
    SkipNone(s);
    var c := Advance(payload, from, from, 0);
    if c.Failure? { SkipFailed(s, 1, 2 * count); return Failure(c.error), 0; }
    var at := c.value;
    while turns < count
      invariant turns <= count
      invariant from <= at <= |payload|
      invariant 2 * turns <= at - from
      invariant Skip(s, 1 + 2 * turns) == Success(at - from)
    {
      c := Advance(payload, from, at, 1 + 2 * turns);
      if c.Failure? { SkipFailed(s, 2 + 2 * turns, 2 * (count - turns) - 1); return Failure(c.error), turns; }
      c := Advance(payload, from, c.value, 2 + 2 * turns);
      if c.Failure? { SkipFailed(s, 3 + 2 * turns, 2 * (count - turns) - 2); return Failure(c.error), turns; }
      at := c.value;
      turns := turns + 1;
    }
    r := Success(at);
  }

  /** The three ECN counts, after a run of k varints that has reached the cursor i. */
  method SkipEcnCounts(payload: seq<byte>, ghost start: nat, i: nat, ghost k: nat) returns (r: Result<nat, Error>)
    requires start <= i <= |payload|
    requires Skip(payload[start..], k) == Success(i - start)
    ensures r == Moved(Skip(payload[start..], k + 3), start)
  {
    hide Skip;
    ghost var s := payload[start..];
    var c := Advance(payload, start, i, k);
    if c.Failure? { SkipFailed(s, k + 1, 2); return Failure(c.error); }
    c := Advance(payload, start, c.value, k + 1);
    if c.Failure? { SkipFailed(s, k + 2, 1); return Failure(c.error); }
    r := Advance(payload, start, c.value, k + 2);
  }

  /**
   Walks over the body of an ACK frame from cursor i and returns the new cursor. The range loop
   turns at most half as often as there are bytes left, whatever range count the frame claims.
   */
  method SkipAckFrame(payload: seq<byte>, i: nat, hasEcn: bool) returns (r: Result<nat, Error>, turns: nat)
    requires i <= |payload|
    ensures r == Moved(SkipAck(payload[i..], hasEcn), i)
    ensures 2 * turns <= |payload| - i
  {
    hide Skip, Read;
    ghost var s := payload[i..];
    turns := 0;
    SkipNone(s);
    var c := Advance(payload, i, i, 0);
    if c.Failure? { SkipFailed(s, 1, 1); return Failure(c.error), 0; }
    c := Advance(payload, i, c.value, 1);
    if c.Failure? { return Failure(c.error), 0; }
    var counted := ReadAt(payload, c.value);
    assert s[c.value - i..] == payload[c.value..];
    if counted.Failure? { return Failure(counted.error), 0; }
    var (count, n) := counted.value;
    var from := c.value + n;
    assert s[from - i..] == payload[from..];
    ghost var tail := payload[from..];
    c, turns := SkipRanges(payload, from, count);
    if c.Failure? {
      SkipFailed(tail, 1 + 2 * count, if hasEcn then 3 else 0);
      return Failure(c.error), turns;
    }
    r := c;
    if hasEcn {
      r := SkipEcnCounts(payload, from, c.value, 1 + 2 * count);
    }
  }

  method SkipCloseFrame(payload: seq<byte>, i: nat, transport: bool) returns (r: Result<nat, Error>)
    requires i <= |payload|
    ensures r == Moved(SkipClose(payload[i..], if transport then 2 else 1), i)
  {
    hide Read, Skip;
    ghost var s := payload[i..];
    SkipNone(s);
    var c := Advance(payload, i, i, 0);
    if c.Failure? { SkipFailed(s, 1, 1); return Failure(c.error); }
    if transport {
      c := Advance(payload, i, c.value, 1);
      if c.Failure? { return Failure(c.error); }
    }
    var v := ReadAt(payload, c.value);
    assert s[c.value - i..] == payload[c.value..];
    if v.Failure? { return Failure(v.error); }
    var (len, n) := v.value;
    if |payload| < c.value + n + len {
      return Failure(TruncatedReason);
    }
    r := Success(c.value + n + len);
  }

  function Prepend(frames: seq<Chunk>, r: Result<seq<Chunk>, Error>): Result<seq<Chunk>, Error> {
    match r
    case Success(rest) => Success(frames + rest)
    case Failure(e) => Failure(e)
  }

  lemma {:induction false} CryptoStep(s: seq<byte>, frames: seq<Chunk>)
    requires s != [] && ReadFrame(s).Success?
    ensures Prepend(frames, Crypto(s)) ==
            Prepend(frames + ReadFrame(s).value.0, Crypto(s[ReadFrame(s).value.1..]))
  {
    hide ReadFrame;
    var (first, n) := ReadFrame(s).value;
    if Crypto(s[n..]).Success? {
      var rest := Crypto(s[n..]).value;
      assert frames + (first + rest) == frames + first + rest;
    }
  }

  /** One turn of the frame loop: the frame at the cursor, and the cursor after it. */
  method ReadFrameAt(payload: seq<byte>, i: nat) returns (r: Result<(seq<Chunk>, nat), Error>)
    requires i < |payload|
    ensures r == match ReadFrame(payload[i..])
                 case Success((got, n)) => Success((got, i + n))
                 case Failure(e) => Failure(e)
  {
    hide Read, SkipAck, SkipClose;
    ghost var s := payload[i..];
    var v := ReadAt(payload, i);
    if v.Failure? { return Failure(v.error); }
    var (ty, n) := v.value;
    var j := i + n;
    ghost var body := s[n..];
    assert body == payload[j..];
    if ty == 0 || ty == 1 {
      return Success(([], j));
    } else if ty == 2 || ty == 3 {
      var ack, _ := SkipAckFrame(payload, j, ty == 3);
      if ack.Failure? { return Failure(ack.error); }
      return Success(([], ack.value));
    } else if ty == 6 {
      var o := ReadAt(payload, j);
      if o.Failure? { return Failure(o.error); }
      var l := ReadAt(payload, j + o.value.1);
      assert body[o.value.1..] == payload[j + o.value.1..];
      if l.Failure? { return Failure(l.error); }
      var k := j + o.value.1 + l.value.1;
      var len := l.value.0;
      if |payload| < k + len { return Failure(TruncatedCrypto); }
      assert body[k - j..k - j + len] == payload[k..k + len];
      assert ReadCrypto(body) == Success((Chunk(o.value.0, payload[k..k + len]), k - j + len));
      return Success(([Chunk(o.value.0, payload[k..k + len])], k + len));
    } else if ty == 0x1c || ty == 0x1d {
      var close := SkipCloseFrame(payload, j, ty == 0x1c);
      if close.Failure? { return Failure(close.error); }
      return Success(([], close.value));
    }
    return Failure(UnexpectedFrame);
  }

  /** The frame loop. It ends on every input: each frame moves the cursor. */
  method ReadCryptoFrames(payload: seq<byte>) returns (r: Result<seq<Chunk>, Error>)
    ensures r == Crypto(payload)
  {
    hide ReadFrame;
    var frames: seq<Chunk> := [];
    var i := 0;
    assert payload[0..] == payload;
    assert Crypto(payload).Success? ==> [] + Crypto(payload).value == Crypto(payload).value;
    while i < |payload|
      invariant i <= |payload|
      invariant Crypto(payload) == Prepend(frames, Crypto(payload[i..]))
      decreases |payload| - i
    {
      var frame := ReadFrameAt(payload, i);
      if frame.Failure? { return Failure(frame.error); }
      CryptoStep(payload[i..], frames);
      assert payload[i..][frame.value.1 - i..] == payload[frame.value.1..];
      frames := frames + frame.value.0;
      i := frame.value.1;
    }
    assert frames + [] == frames;
    r := Success(frames);
  }

  // ----- the grammar: what a sender may write

  datatype Body =
    | Bare
    | Ack(head: seq<V.Var>, count: V.Var, tail: seq<V.Var>)
    | CryptoData(offset: V.Var, len: V.Var, data: seq<byte>)
    | Close(codes: seq<V.Var>, len: V.Var, reason: seq<byte>)

  datatype Frame = Frame(ty: V.Var, body: Body) {

    ghost predicate Valid() {
      ty.Valid() &&
      match body
      case Bare => ty.value in {0, 1}
      case Ack(head, count, tail) =>
        ty.value in {2, 3} && AllValid(head) && count.Valid() && AllValid(tail) && |head| == 2 &&
        |tail| == 1 + 2 * count.value + if ty.value == 3 then 3 else 0
      case CryptoData(offset, len, data) =>
        ty.value == 6 && offset.Valid() && len.Valid() && len.value == |data|
      case Close(codes, len, reason) =>
        ty.value in {0x1c, 0x1d} && AllValid(codes) && len.Valid() && len.value == |reason| &&
        |codes| == if ty.value == 0x1c then 2 else 1
    }

    ghost function EncodeBody(): seq<byte>
      requires Valid()
    {
      match body
      case Bare => []
      case Ack(head, count, tail) => EncodeVars(head) + (count.Encode() + EncodeVars(tail))
      case CryptoData(offset, len, data) => offset.Encode() + (len.Encode() + data)
      case Close(codes, len, reason) => EncodeVars(codes) + (len.Encode() + reason)
    }

    ghost function Encode(): seq<byte>
      requires Valid()
    {
      ty.Encode() + EncodeBody()
    }

    ghost function Chunks(): seq<Chunk>
      requires Valid()
    {
      if body.CryptoData? then [Chunk(body.offset.value, body.data)] else []
    }
  }

  ghost predicate AllValid(vs: seq<V.Var>) {
    forall v <- vs :: v.Valid()
  }

  ghost function EncodeVars(vs: seq<V.Var>): seq<byte>
    requires AllValid(vs)
  {
    if vs == [] then [] else vs[0].Encode() + EncodeVars(vs[1..])
  }

  ghost predicate WellFormed(fs: seq<Frame>) {
    forall f <- fs :: f.Valid()
  }

  ghost function Encode(fs: seq<Frame>): seq<byte>
    requires WellFormed(fs)
  {
    if fs == [] then [] else fs[0].Encode() + Encode(fs[1..])
  }

  ghost function Chunks(fs: seq<Frame>): seq<Chunk>
    requires WellFormed(fs)
  {
    if fs == [] then [] else fs[0].Chunks() + Chunks(fs[1..])
  }

  lemma ReadVar(v: V.Var, rest: seq<byte>)
    requires v.Valid()
    ensures Read(v.Encode() + rest) == Success((v.value, |v.Encode()|))
    ensures (v.Encode() + rest)[|v.Encode()|..] == rest
  {
    hide V.Read, V.Var.Encode;
    V.ReadEncoded(v, rest);
  }

  lemma {:induction false} SkipVars(vs: seq<V.Var>, rest: seq<byte>)
    requires AllValid(vs)
    ensures Skip(EncodeVars(vs) + rest, |vs|) == Success(|EncodeVars(vs)|)
    ensures (EncodeVars(vs) + rest)[|EncodeVars(vs)|..] == rest
  {
    hide Read, V.Var.Encode;
    if vs != [] {
      var tail := EncodeVars(vs[1..]) + rest;
      assert EncodeVars(vs) + rest == vs[0].Encode() + tail;
      ReadVar(vs[0], tail);
      SkipVars(vs[1..], rest);
    }
  }

  lemma ReadAckBody(f: Frame, rest: seq<byte>)
    requires f.Valid() && f.body.Ack?
    ensures SkipAck(f.EncodeBody() + rest, f.ty.value == 3) == Success(|f.EncodeBody()|)
  {
    hide Read, Skip, V.Var.Encode, EncodeVars;
    var Ack(head, count, tail) := f.body;
    var s := f.EncodeBody() + rest;
    var rest1 := EncodeVars(tail) + rest;
    assert s == EncodeVars(head) + (count.Encode() + rest1);
    SkipVars(head, count.Encode() + rest1);
    ReadVar(count, rest1);
    assert s[|EncodeVars(head)| + |count.Encode()|..] == rest1;
    SkipVars(tail, rest);
  }

  lemma ReadCryptoBody(f: Frame, rest: seq<byte>)
    requires f.Valid() && f.body.CryptoData?
    ensures ReadCrypto(f.EncodeBody() + rest) ==
            Success((Chunk(f.body.offset.value, f.body.data), |f.EncodeBody()|))
  {
    hide Read, V.Var.Encode;
    var CryptoData(offset, len, data) := f.body;
    var s := f.EncodeBody() + rest;
    assert s == offset.Encode() + (len.Encode() + (data + rest));
    ReadVar(offset, len.Encode() + (data + rest));
    ReadVar(len, data + rest);
    var k := |offset.Encode()| + |len.Encode()|;
    assert s[k..k + |data|] == data;
  }

  lemma ReadCloseBody(f: Frame, rest: seq<byte>)
    requires f.Valid() && f.body.Close?
    ensures SkipClose(f.EncodeBody() + rest, |f.body.codes|) == Success(|f.EncodeBody()|)
  {
    hide Read, Skip, V.Var.Encode, EncodeVars;
    var Close(codes, len, reason) := f.body;
    assert f.EncodeBody() + rest == EncodeVars(codes) + (len.Encode() + (reason + rest));
    SkipVars(codes, len.Encode() + (reason + rest));
    ReadVar(len, reason + rest);
  }

  lemma ReadOne(f: Frame, rest: seq<byte>)
    requires f.Valid()
    ensures ReadFrame(f.Encode() + rest) == Success((f.Chunks(), |f.Encode()|))
    ensures (f.Encode() + rest)[|f.Encode()|..] == rest
  {
    hide Read, SkipAck, SkipClose, ReadCrypto, V.Var.Encode, Frame.EncodeBody;
    var body := f.EncodeBody() + rest;
    assert f.Encode() + rest == f.ty.Encode() + body;
    ReadVar(f.ty, body);
    match f.body
    case Bare => BareBody(f);
    case Ack(_, _, _) => ReadAckBody(f, rest);
    case CryptoData(_, _, _) => ReadCryptoBody(f, rest);
    case Close(_, _, _) => ReadCloseBody(f, rest);
  }

  lemma BareBody(f: Frame)
    requires f.Valid() && f.body.Bare?
    ensures f.EncodeBody() == []
  {
  }

  /** Parsing any concatenation of well-formed frames yields exactly their CRYPTO chunks, in order. */
  lemma {:induction false} ParsesWhatIsWritten(fs: seq<Frame>)
    requires WellFormed(fs)
    ensures Crypto(Encode(fs)) == Success(Chunks(fs))
  {
    hide ReadFrame, Frame.Encode, Frame.Chunks;
    if fs != [] {
      ReadOne(fs[0], Encode(fs[1..]));
      ParsesWhatIsWritten(fs[1..]);
    }
  }

  // ----- conversely, only such concatenations parse

  lemma VarIsWritten(s: seq<byte>) returns (v: V.Var)
    requires Read(s).Success?
    ensures v.Valid() && v.value == Read(s).value.0 && v.Encode() == s[..Read(s).value.1]
  {
    hide V.Read, V.Var.Encode;
    v := V.ReadIsEncoded(s);
  }

  lemma {:induction false} SkippedVars(s: seq<byte>, k: nat) returns (vs: seq<V.Var>)
    requires Skip(s, k).Success?
    ensures AllValid(vs) && |vs| == k && EncodeVars(vs) == s[..Skip(s, k).value]
    decreases k
  {
    hide Read, V.Var.Encode;
    if k == 0 {
      vs := [];
    } else {
      var v := VarIsWritten(s);
      var n := Read(s).value.1;
      var rest := SkippedVars(s[n..], k - 1);
      vs := [v] + rest;
      assert vs[1..] == rest;
      JoinSlices(s, n, Skip(s[n..], k - 1).value);
    }
  }

  lemma AckIsWritten(s: seq<byte>, ty: V.Var) returns (f: Frame)
    requires ty.Valid() && ty.value in {2, 3} && SkipAck(s, ty.value == 3).Success?
    ensures f.Valid() && f.ty == ty && f.EncodeBody() == s[..SkipAck(s, ty.value == 3).value]
    ensures f.Chunks() == []
  {
    hide Read, V.Var.Encode, Skip, EncodeVars;
    var head := SkippedVars(s, 2);
    var a := Skip(s, 2).value;
    var count := VarIsWritten(s[a..]);
    var b := a + Read(s[a..]).value.1;
    var k := 1 + 2 * count.value + if ty.value == 3 then 3 else 0;
    var tail := SkippedVars(s[b..], k);
    f := Frame(ty, Ack(head, count, tail));
    var m := Skip(s[b..], k).value;
    assert s[a..][..b - a] == s[a..b] && s[b..][..m] == s[b..b + m];
    assert s[..b + m] == s[..a] + (s[a..b] + s[b..b + m]);
  }

  lemma CloseIsWritten(s: seq<byte>, ty: V.Var, codes: nat) returns (f: Frame)
    requires ty.Valid() && ty.value in {0x1c, 0x1d} && codes == (if ty.value == 0x1c then 2 else 1)
    requires SkipClose(s, codes).Success?
    ensures f.Valid() && f.ty == ty && f.EncodeBody() == s[..SkipClose(s, codes).value]
    ensures f.Chunks() == []
  {
    hide Read, V.Var.Encode, Skip, EncodeVars;
    var vs := SkippedVars(s, codes);
    var a := Skip(s, codes).value;
    var len := VarIsWritten(s[a..]);
    var b := a + Read(s[a..]).value.1;
    f := Frame(ty, Close(vs, len, s[b..b + len.value]));
    assert s[..b + len.value] == s[..a] + (s[a..][..b - a] + s[b..b + len.value]);
  }

  lemma CryptoIsWritten(s: seq<byte>, ty: V.Var) returns (f: Frame)
    requires ty.Valid() && ty.value == 6 && ReadCrypto(s).Success?
    ensures f.Valid() && f.ty == ty && f.EncodeBody() == s[..ReadCrypto(s).value.1]
    ensures f.Chunks() == [ReadCrypto(s).value.0]
  {
    hide Read, V.Var.Encode;
    var offset := VarIsWritten(s);
    var a := Read(s).value.1;
    var len := VarIsWritten(s[a..]);
    var b := a + Read(s[a..]).value.1;
    f := Frame(ty, CryptoData(offset, len, s[b..b + len.value]));
    assert s[..b + len.value] == s[..a] + (s[a..][..b - a] + s[b..b + len.value]);
  }

  lemma BodyIsWritten(ty: V.Var, body: seq<byte>) returns (f: Frame)
    requires ty.Valid() && ReadBody(ty.value, body).Success?
    ensures f.Valid() && f.ty == ty
    ensures f.EncodeBody() == body[..ReadBody(ty.value, body).value.1]
    ensures f.Chunks() == ReadBody(ty.value, body).value.0
  {
    hide SkipAck, SkipClose, ReadCrypto, Frame.EncodeBody;
    if ty.value in {0, 1} {
      f := Frame(ty, Bare);
      BareBody(f);
    } else if ty.value in {2, 3} {
      f := AckIsWritten(body, ty);
    } else if ty.value == 6 {
      f := CryptoIsWritten(body, ty);
    } else {
      f := CloseIsWritten(body, ty, if ty.value == 0x1c then 2 else 1);
    }
  }

  lemma FrameIsWritten(s: seq<byte>) returns (f: Frame)
    requires ReadFrame(s).Success?
    ensures f.Valid() && f.Encode() == s[..ReadFrame(s).value.1] && f.Chunks() == ReadFrame(s).value.0
  {
    hide Read, ReadBody, V.Var.Encode, Frame.EncodeBody, Frame.Chunks, Frame.Valid;
    var ty := VarIsWritten(s);
    var n := Read(s).value.1;
    f := BodyIsWritten(ty, s[n..]);
    JoinSlices(s, n, ReadBody(ty.value, s[n..]).value.1);
  }

  /** A payload parses only if it is a concatenation of well-formed frames. */
  lemma {:induction false} OnlyWrittenParses(s: seq<byte>) returns (fs: seq<Frame>)
    requires Crypto(s).Success?
    ensures WellFormed(fs) && Encode(fs) == s && Chunks(fs) == Crypto(s).value
  {
    hide ReadFrame, Frame.Encode, Frame.Chunks;
    if s == [] {
      fs := [];
    } else {
      var f := FrameIsWritten(s);
      var n := ReadFrame(s).value.1;
      var rest := OnlyWrittenParses(s[n..]);
      fs := [f] + rest;
      assert fs[1..] == rest;
      assert s == s[..n] + s[n..];
    }
  }

  ghost predicate Writes(fs: seq<Frame>, s: seq<byte>) {
    WellFormed(fs) && Encode(fs) == s
  }

  /** The parser accepts exactly the payloads the grammar can write, with their chunks in order. */
  lemma Grammar(s: seq<byte>)
    ensures Crypto(s).Success? <==> exists fs :: Writes(fs, s)
    ensures forall fs :: Writes(fs, s) ==> Crypto(s) == Success(Chunks(fs))
  {
    hide Crypto, Encode, Chunks, WellFormed;
    if Crypto(s).Success? {
      var fs := OnlyWrittenParses(s);
      assert Writes(fs, s);
    }
    forall fs | Writes(fs, s) ensures Crypto(s) == Success(Chunks(fs)) {
      ParsesWhatIsWritten(fs);
    }
  }
}
