/**
 Reassembly of the CRYPTO stream (section 19.6 of RFC 9000) from chunks that may arrive out of
 order, overlap or repeat.
 */
module CryptoReassembly {
  import opened Wrappers
  import opened Bytes
  import opened Frames

  const MAX_CRYPTO_FRAGMENTS: nat := 128

  datatype InsertError = TooManyFragments

  /** The contiguous start of the stream, and the chunks beyond it by offset. */
  datatype State = State(bytes: seq<byte>, fragments: map<nat, seq<byte>>)

  const EMPTY: State := State([], map[])

  lemma {:induction false} Least(keys: set<nat>) returns (k: nat)
    requires keys != {}
    ensures k in keys && forall j <- keys :: k <= j
  {
    var x :| x in keys;
    if keys == {x} {
      k := x;
    } else {
      var rest := keys - {x};
      assert rest != {} && keys == rest + {x};
      k := Least(rest);
      if x < k {
        k := x;
      }
    }
  }

  /** Least key, as an ordered map finds it. */
  function FirstKey(m: map<nat, seq<byte>>): (k: nat)
    requires m != map[]
    ensures k in m && forall j <- m :: k <= j
  {
    assert m.Keys != {} by {
      var some :| some in m;
    }
    assert exists k :: k in m && forall j <- m :: k <= j by {
      var least := Least(m.Keys);
    }
    var k :| k in m && forall j <- m :: k <= j;
    k
  }

  /** The bytes with the part of the chunk that reaches beyond them. */
  function Append(bytes: seq<byte>, offset: nat, data: seq<byte>): (r: seq<byte>)
    requires offset <= |bytes|
    ensures bytes <= r
  {
    var skip := |bytes| - offset;
    if skip <= |data| then bytes + data[skip..] else bytes
  }

  /** Absorbs, least offset first, the fragments that the bytes have reached. */
  function Drain(st: State): (r: State)
    ensures st.bytes <= r.bytes
    ensures forall o <- r.fragments :: o in st.fragments && o > |r.bytes|
    decreases |st.fragments|
  {
    if st.fragments != map[] && FirstKey(st.fragments) <= |st.bytes| then
      var k := FirstKey(st.fragments);
      Drain(State(Append(st.bytes, k, st.fragments[k]), st.fragments - {k}))
    else st
  }

  function Insert(st: State, chunk: Chunk): (r: Result<State, InsertError>)
    ensures r.Success? ==> st.bytes <= r.value.bytes
  {
    var Chunk(offset, data) := chunk;
    if data == [] then Success(st)
    else if offset > |st.bytes| then
      if offset !in st.fragments && |st.fragments| >= MAX_CRYPTO_FRAGMENTS then Failure(TooManyFragments)
      else if offset !in st.fragments || |st.fragments[offset]| < |data| then
        Success(st.(fragments := st.fragments[offset := data]))
      else Success(st)
    else Success(Drain(st.(bytes := Append(st.bytes, offset, data))))
  }

  function InsertAll(st: State, chunks: seq<Chunk>): (r: Result<State, InsertError>)
    ensures r.Success? ==> st.bytes <= r.value.bytes
    decreases |chunks|
  {
    if chunks == [] then Success(st)
    else
      var next :- Insert(st, chunks[0]);
      InsertAll(next, chunks[1..])
  }

  // ----- the object that is updated in place

  class Reassembly {
    var bytes: seq<byte>
    var fragments: map<nat, seq<byte>>

    function Value(): State
      reads this
    {
      State(bytes, fragments)
    }

    constructor ()
      ensures Value() == EMPTY
    {
      bytes, fragments := [], map[];
    }

    method AppendChunk(offset: nat, data: seq<byte>)
      requires offset <= |bytes|
      modifies this`bytes
      ensures bytes == Append(old(bytes), offset, data)
    {
      var skip := |bytes| - offset;
      if skip <= |data| {
        bytes := bytes + data[skip..];
      }
    }

    method InsertChunk(offset: nat, data: seq<byte>) returns (ok: bool)
      modifies this
      ensures ok == Insert(old(Value()), Chunk(offset, data)).Success?
      ensures Value() == if ok then Insert(old(Value()), Chunk(offset, data)).value else old(Value())
    {
      if data == [] {
        return true;
      }
      if offset > |bytes| {
        if offset !in fragments && |fragments| >= MAX_CRYPTO_FRAGMENTS {
          return false;
        }
        if offset !in fragments || |fragments[offset]| < |data| {
          fragments := fragments[offset := data];
        }
        return true;
      }
      AppendChunk(offset, data);
      ghost var start := Value();
      while fragments != map[] && FirstKey(fragments) <= |bytes|
        invariant Drain(start) == Drain(Value())
        decreases |fragments|
      {
        var k := FirstKey(fragments);
        var fragment := fragments[k];
        fragments := fragments - {k};
        AppendChunk(k, fragment);
      }
      return true;
    }
  }

  // ----- exactness: what the state is, as a property of the chunks inserted

  ghost predicate Agrees(c: Chunk, stream: seq<byte>) {
    c.data != [] ==> c.offset + |c.data| <= |stream| && stream[c.offset..c.offset + |c.data|] == c.data
  }

  ghost predicate Covers(c: Chunk, p: nat) {
    c.offset <= p < c.offset + |c.data|
  }

  ghost predicate Covered(chunks: seq<Chunk>, p: nat) {
    exists c :: c in chunks && Covers(c, p)
  }

  /** The bytes are the longest prefix of the stream that the chunks cover without a gap. */
  ghost predicate LongestPrefix(bytes: seq<byte>, stream: seq<byte>, chunks: seq<Chunk>) {
    bytes <= stream && (forall p: nat | p < |bytes| :: Covered(chunks, p)) && !Covered(chunks, |bytes|)
  }

  /** Each chunk starting beyond the bytes is kept, or a longer one at its offset is; nothing else. */
  ghost predicate LongestBeyond(st: State, chunks: seq<Chunk>) {
    (forall o <- st.fragments :: o > |st.bytes| && st.fragments[o] != [] && Chunk(o, st.fragments[o]) in chunks) &&
    (forall c <- chunks :: c.data != [] && c.offset > |st.bytes| ==>
                             c.offset in st.fragments && |c.data| <= |st.fragments[c.offset]|)
  }

  ghost predicate Exact(st: State, stream: seq<byte>, chunks: seq<Chunk>) {
    LongestPrefix(st.bytes, stream, chunks) && LongestBeyond(st, chunks)
  }

  ghost predicate AllAgree(chunks: seq<Chunk>, stream: seq<byte>) {
    forall c <- chunks :: Agrees(c, stream)
  }

  // ----- what insertion leaves, whether or not the chunks agree

  function End(c: Chunk): nat {
    c.offset + |c.data|
  }

  /** Some chunk that ends by q covers p. */
  ghost predicate CoveredBy(chunks: seq<Chunk>, p: nat, q: nat) {
    exists c :: c in chunks && Covers(c, p) && End(c) <= q
  }

  ghost predicate Whole(chunks: seq<Chunk>, n: nat) {
    forall p: nat | p < n :: CoveredBy(chunks, p, n)
  }

  /** In some order this chunk is the one that byte q comes from: chunks that end by q reach up to it. */
  ghost predicate Supplies(chunks: seq<Chunk>, c: Chunk, q: nat) {
    c in chunks && Covers(c, q) && forall p: nat | p < c.offset :: CoveredBy(chunks, p, q)
  }

  ghost predicate Gives(chunks: seq<Chunk>, c: Chunk, q: nat, x: byte) {
    Supplies(chunks, c, q) && c.data[q - c.offset] == x
  }

  ghost predicate Given(chunks: seq<Chunk>, q: nat, x: byte) {
    exists c :: Gives(chunks, c, q, x)
  }

  ghost predicate Supplied(chunks: seq<Chunk>, bytes: seq<byte>) {
    forall q: nat | q < |bytes| :: Given(chunks, q, bytes[q])
  }

  /** The bytes reach to the first gap, each from a chunk that can supply it, and what lies beyond is kept. */
  ghost predicate Settled(st: State, chunks: seq<Chunk>) {
    Supplied(chunks, st.bytes) && Whole(chunks, |st.bytes|) && !Covered(chunks, |st.bytes|) && LongestBeyond(st, chunks)
  }

  /** Settled, but for fragments within reach. */
  ghost predicate Draining(st: State, chunks: seq<Chunk>) {
    Supplied(chunks, st.bytes) && Whole(chunks, |st.bytes|) &&
    (forall o <- st.fragments :: st.fragments[o] != [] && Chunk(o, st.fragments[o]) in chunks) &&
    (forall c <- chunks :: c.data == [] || End(c) <= |st.bytes| ||
                           (c.offset in st.fragments && |c.data| <= |st.fragments[c.offset]|))
  }

  lemma AppendSupplied(bytes: seq<byte>, c: Chunk, chunks: seq<Chunk>)
    requires Supplied(chunks, bytes) && Whole(chunks, |bytes|)
    requires c in chunks && c.offset <= |bytes| && c.data != []
    ensures var r := Append(bytes, c.offset, c.data);
            Supplied(chunks, r) && Whole(chunks, |r|) && End(c) <= |r|
  {
    var n, r := |bytes|, Append(bytes, c.offset, c.data);
    forall q: nat | q < |r| ensures Given(chunks, q, r[q]) {
      if q < n {
        assert Given(chunks, q, bytes[q]);
      } else {
        CoveredLater(chunks, n, q);
        assert Gives(chunks, c, q, r[q]);
      }
    }
    CoveredLater(chunks, n, |r|);
    forall p: nat | p < |r| ensures CoveredBy(chunks, p, |r|) {
      assert p < n || Covers(c, p);
    }
  }

  lemma CoveredLater(chunks: seq<Chunk>, n: nat, m: nat)
    requires Whole(chunks, n) && n <= m
    ensures forall p: nat | p < n :: CoveredBy(chunks, p, m)
  {
    forall p: nat | p < n ensures CoveredBy(chunks, p, m) {
      assert CoveredBy(chunks, p, n);
    }
  }

  lemma {:induction false} DrainSettles(st: State, chunks: seq<Chunk>)
    requires Draining(st, chunks)
    ensures Settled(Drain(st), chunks)
    decreases |st.fragments|
  {
    hide Supplied, Whole, Append;
    if st.fragments != map[] && FirstKey(st.fragments) <= |st.bytes| {
      var k := FirstKey(st.fragments);
      AppendSupplied(st.bytes, Chunk(k, st.fragments[k]), chunks);
      DrainSettles(State(Append(st.bytes, k, st.fragments[k]), st.fragments - {k}), chunks);
    } else {
      assert st.fragments != map[] ==> forall o <- st.fragments :: o > |st.bytes|;
      if c :| c in chunks && Covers(c, |st.bytes|) {
        assert false;
      }
    }
  }

  /** More chunks supply and cover no less. */
  lemma SuppliedMore(chunks: seq<Chunk>, all: seq<Chunk>, bytes: seq<byte>)
    requires forall c <- chunks :: c in all
    requires Supplied(chunks, bytes) && Whole(chunks, |bytes|)
    ensures Supplied(all, bytes) && Whole(all, |bytes|)
  {
    forall p: nat, q: nat | CoveredBy(chunks, p, q) ensures CoveredBy(all, p, q) {
      var c :| c in chunks && Covers(c, p) && End(c) <= q;
      assert c in all;
    }
    forall q: nat | q < |bytes| ensures Given(all, q, bytes[q]) {
      assert Given(chunks, q, bytes[q]);
      var c :| Gives(chunks, c, q, bytes[q]);
      assert Gives(all, c, q, bytes[q]);
    }
  }

  lemma InsertSettles(st: State, chunks: seq<Chunk>, c: Chunk)
    requires Settled(st, chunks) && Insert(st, c).Success?
    ensures Settled(Insert(st, c).value, chunks + [c])
  {
    hide Append, Drain, Supplied, Whole;
    var all := chunks + [c];
    SuppliedMore(chunks, all, st.bytes);
    assert c in all;
    forall d | d in chunks ensures d.data == [] || d.offset > |st.bytes| || End(d) <= |st.bytes| {
      assert !Covers(d, |st.bytes|);
    }
    if c.data != [] && c.offset <= |st.bytes| {
      AppendSupplied(st.bytes, c, all);
      DrainSettles(st.(bytes := Append(st.bytes, c.offset, c.data)), all);
    }
  }

  lemma {:induction false} InsertAllSettles(st: State, before: seq<Chunk>, chunks: seq<Chunk>)
    requires Settled(st, before) && InsertAll(st, chunks).Success?
    ensures Settled(InsertAll(st, chunks).value, before + chunks)
    decreases |chunks|
  {
    hide Settled, Insert;
    if chunks == [] {
      assert before + chunks == before;
    } else {
      InsertSettles(st, before, chunks[0]);
      InsertAllSettles(Insert(st, chunks[0]).value, before + [chunks[0]], chunks[1..]);
      assert before + [chunks[0]] + chunks[1..] == before + chunks;
    }
  }

  /** Whatever the chunks, in any order. */
  lemma Settles(chunks: seq<Chunk>)
    requires InsertAll(EMPTY, chunks).Success?
    ensures Settled(InsertAll(EMPTY, chunks).value, chunks)
  {
    hide InsertAll;
    InsertAllSettles(EMPTY, [], chunks);
    assert [] + chunks == chunks;
  }

  lemma SettledIsExact(st: State, stream: seq<byte>, chunks: seq<Chunk>)
    requires Settled(st, chunks) && AllAgree(chunks, stream)
    ensures Exact(st, stream, chunks)
  {
    var n := |st.bytes|;
    forall q: nat | q < n ensures q < |stream| && st.bytes[q] == stream[q] && Covered(chunks, q) {
      assert Given(chunks, q, st.bytes[q]);
      var c :| Gives(chunks, c, q, st.bytes[q]);
      assert Agrees(c, stream) && c.data == stream[c.offset..End(c)];
    }
    assert n > 0 ==> Covered(chunks, n - 1);
    assert st.bytes == stream[..n];
  }

  /** Chunks of one stream, inserted in any order, leave its longest covered prefix and what lies beyond. */
  lemma Exactness(stream: seq<byte>, chunks: seq<Chunk>)
    requires AllAgree(chunks, stream) && InsertAll(EMPTY, chunks).Success?
    ensures Exact(InsertAll(EMPTY, chunks).value, stream, chunks)
  {
    hide InsertAll, Settled, Exact;
    Settles(chunks);
    SettledIsExact(InsertAll(EMPTY, chunks).value, stream, chunks);
  }

  lemma LongestPrefixUnique(a: seq<byte>, b: seq<byte>, stream: seq<byte>, as_: seq<Chunk>, bs: seq<Chunk>)
    requires LongestPrefix(a, stream, as_) && LongestPrefix(b, stream, bs)
    requires forall c :: c in as_ <==> c in bs
    ensures a == b
  {
    assert forall p: nat :: Covered(as_, p) <==> Covered(bs, p);
    assert |a| == |b|;
  }

  lemma ExactUnique(a: State, b: State, stream: seq<byte>, as_: seq<Chunk>, bs: seq<Chunk>)
    requires Exact(a, stream, as_) && Exact(b, stream, bs) && AllAgree(as_, stream)
    requires forall c :: c in as_ <==> c in bs
    ensures a == b
  {
    LongestPrefixUnique(a.bytes, b.bytes, stream, as_, bs);
    forall o | o in a.fragments || o in b.fragments
      ensures o in a.fragments && o in b.fragments && a.fragments[o] == b.fragments[o]
    {
      if o in a.fragments {
        assert Chunk(o, a.fragments[o]) in bs;
      }
      if o in b.fragments {
        assert Chunk(o, b.fragments[o]) in as_;
      }
      var x, y := Chunk(o, a.fragments[o]), Chunk(o, b.fragments[o]);
      assert Agrees(x, stream) && Agrees(y, stream);
      assert |x.data| == |y.data|;
    }
    assert a.fragments.Keys == b.fragments.Keys;
  }

  // ----- bounds

  ghost predicate Bounded(st: State) {
    |st.fragments| <= MAX_CRYPTO_FRAGMENTS && forall o <- st.fragments :: o > |st.bytes|
  }

  lemma {:induction false} DrainShrinks(st: State)
    ensures |Drain(st).fragments| <= |st.fragments|
    decreases |st.fragments|
  {
    if st.fragments != map[] && FirstKey(st.fragments) <= |st.bytes| {
      var k := FirstKey(st.fragments);
      DrainShrinks(State(Append(st.bytes, k, st.fragments[k]), st.fragments - {k}));
    }
  }

  /** Whatever is inserted, at most 128 fragments wait, each beyond the bytes. */
  lemma {:induction false} InsertAllBounded(st: State, chunks: seq<Chunk>)
    requires Bounded(st) && InsertAll(st, chunks).Success?
    ensures Bounded(InsertAll(st, chunks).value)
    decreases |chunks|
  {
    if chunks != [] {
      var Chunk(offset, data) := chunks[0];
      if offset <= |st.bytes| {
        DrainShrinks(st.(bytes := Append(st.bytes, offset, data)));
      }
      InsertAllBounded(Insert(st, chunks[0]).value, chunks[1..]);
    }
  }

  lemma {:induction false} InsertAllConcat(st: State, a: seq<Chunk>, b: seq<Chunk>)
    ensures InsertAll(st, a).Failure? ==> InsertAll(st, a + b).Failure?
    ensures InsertAll(st, a).Success? ==> InsertAll(st, a + b) == InsertAll(InsertAll(st, a).value, b)
    decreases |a|
  {
    hide Insert;
    if a == [] {
      assert a + b == b;
    } else {
      assert (a + b)[0] == a[0] && (a + b)[1..] == a[1..] + b;
      if Insert(st, a[0]).Success? {
        InsertAllConcat(Insert(st, a[0]).value, a[1..], b);
      }
    }
  }

  // ----- the ClientHello at the start of the stream

  datatype HelloError = NotClientHello

  function ClientHello(bytes: seq<byte>): Result<Option<seq<byte>>, HelloError> {
    if |bytes| < 4 then Success(None)
    else if bytes[0] != 1 then Failure(NotClientHello)
    else
      var needed := 4 + U24(bytes[1], bytes[2], bytes[3]);
      if |bytes| < needed then Success(None) else Success(Some(bytes[..needed]))
  }

  /** A ClientHello message: its type, the length of its body in three bytes, and the body. */
  ghost predicate IsHello(msg: seq<byte>) {
    4 <= |msg| < 4 + 0x100_0000 && msg[..4] == [1] + Write24(|msg| - 4)
  }

  /** The stream holds a hello exactly when it begins with it, and is rejected exactly for another first byte. */
  lemma HelloExactly(bytes: seq<byte>, msg: seq<byte>)
    ensures ClientHello(bytes) == Success(Some(msg)) <==> IsHello(msg) && msg <= bytes
    ensures ClientHello(bytes).Failure? <==> |bytes| >= 4 && bytes[0] != 1
  {
    hide Write24;
    if |bytes| >= 4 {
      Write24Read(bytes[1], bytes[2], bytes[3]);
      if ClientHello(bytes) == Success(Some(msg)) {
        assert msg[..4] == bytes[..4] == [1] + [bytes[1], bytes[2], bytes[3]];
      }
    }
    if IsHello(msg) && msg <= bytes {
      var w := Write24(|msg| - 4);
      assert bytes[..4] == msg[..4];
      assert bytes[0] == 1 && bytes[1] == w[0] && bytes[2] == w[1] && bytes[3] == w[2];
      assert bytes[..|msg|] == msg;
    }
  }

  /** Once four bytes are in, more of the stream changes neither a complete hello nor a rejection. */
  lemma ClientHelloStable(bytes: seq<byte>, more: seq<byte>)
    requires bytes <= more && ClientHello(bytes) != Success(None)
    ensures ClientHello(more) == ClientHello(bytes)
  {
    if |bytes| >= 4 && bytes[0] == 1 {
      var needed := 4 + U24(bytes[1], bytes[2], bytes[3]);
      if needed <= |bytes| {
        assert more[..needed] == bytes[..needed];
      }
    }
  }
}
