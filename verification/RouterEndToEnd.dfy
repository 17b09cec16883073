/**
 From the client's stream to the route, over whole runs: while everything a client sends under one
 destination id carries pieces of one stream, its handshake is routed by the name in that stream.
 */
module RouterEndToEnd {
  import opened Wrappers
  import opened Bytes
  import opened Addresses
  import opened Routing
  import opened Frames
  import opened RouterTable
  import opened RouterInvariant
  import opened RouterFate
  import opened RouterHandshake
  import opened RouterPinning
  import opened RouterProvenance
  import L = LongHeader
  import P = InitialProtection
  import R = CryptoReassembly
  import Hello = ClientHello

  // ----- a handshake holds only datagrams of its own destination id

  /** The destination id of a datagram that decrypts as a fresh Initial. */
  function KeyId(primitives: P.Primitives, packet: seq<byte>): Option<Cid> {
    match P.Decrypt(primitives, packet, None)
    case Success(d) => Some(d.dcid)
    case Failure(_) => None
  }

  ghost predicate AllUnder(primitives: P.Primitives, datagrams: seq<seq<byte>>, dcid: Cid) {
    forall x <- datagrams :: KeyId(primitives, x) == Some(dcid)
  }

  ghost predicate Keyed(primitives: P.Primitives, pending: map<PendingKey, Pending>) {
    forall key <- pending :: AllUnder(primitives, pending[key].datagrams, key.1)
  }

  lemma HandshakeKeyed(env: Env, t: Table, peer: SocketAddr, packet: seq<byte>, d: P.Decrypted, chunks: seq<Chunk>, now: nat)
    ensures var fate := HandshakeFate(env, t, peer, packet, d, chunks, now); fate.Waits? ==> fate.key.1 == d.dcid
  {
    hide Absorb, RouteForSni, Normalize, PendingBytes;
  }

  /** A datagram waits only with the handshake of its own destination id. */
  lemma WaitsUnderItsId(env: Env, t: Table, peer: SocketAddr, packet: seq<byte>, now: nat)
    ensures var fate := ClientFate(env, t, peer, packet, now);
            fate.Waits? ==> KeyId(env.primitives, packet) == Some(fate.key.1)
  {
    hide HandshakeFate, Crypto, Normalize, Connection.Expired, L.Parse, P.Decrypt, OwnerOf, LongestOwnerOf;
    var d := P.Decrypt(env.primitives, packet, None);
    if d.Success? && Crypto(d.value.payload).Success? {
      HandshakeKeyed(env, t, peer, packet, d.value, Crypto(d.value.payload).value, now);
    }
  }

  lemma ClientKeyed(env: Env, t: Table, peer: SocketAddr, packet: seq<byte>, io: Io)
    requires TableOk(env, t) && Keyed(env.primitives, t.pending)
    ensures Keyed(env.primitives, ClientStep(env, t, peer, packet, io).t.pending)
  {
    hide TableOk, ClientFate, ForwardClient, Establish, Normalize, KeyId, Joined, Accepted, Sends;
    FateConcernsPeer(env, t, peer, packet, io.t1);
    WaitsUnderItsId(env, t, peer, packet, io.t1);
    match ClientFate(env, t, peer, packet, io.t1)
    case Along(id, scid) => var _ := ForwardSends(env, t, id, peer, packet, scid, io.t2, io.sends(0));
    case Arrives(spent, p, route) =>
      if route.Success? {
        var _ := EstablishSends(env, Spend(t, spent), p, route.value, io);
      }
    case _ =>
  }

  lemma StepKeyed(env: Env, t: Table, e: Event)
    requires TableOk(env, t) && Keyed(env.primitives, t.pending)
    ensures Keyed(env.primitives, Step(env, t, e).t.pending)
  {
    hide TableOk, ClientStep, BackendStep, KeyId, Stale, Connection.Expired;
    match e
    case ClientDatagram(peer, packet, io) => ClientKeyed(env, t, peer, packet, io);
    case BackendDatagram(id, packet, now, sendOk) => BackendReturns(env, t, id, packet, now, sendOk);
    case Reload(_) =>
    case Cleanup(_) =>
  }

  lemma {:induction false} RunKeyed(env: Env, t: Table, events: seq<Event>)
    requires TableOk(env, t) && Keyed(env.primitives, t.pending)
    ensures Keyed(env.primitives, Run(env, t, events).pending)
    decreases |events|
  {
    hide TableOk, Step, Keyed;
    if events != [] {
      StepKeyed(env, t, events[0]);
      StepKeeps(env, t, events[0]);
      RunKeyed(env, Step(env, t, events[0]).t, events[1..]);
    }
  }

  // ----- and only pieces of its stream

  /** If the datagram decrypts as a fresh Initial for this id, its chunks are pieces of the stream. */
  ghost predicate IsPiece(primitives: P.Primitives, packet: seq<byte>, dcid: Cid, stream: seq<byte>) {
    KeyId(primitives, packet) == Some(dcid) && PacketChunks(primitives, packet).Some? ==>
      R.AllAgree(PacketChunks(primitives, packet).value.0, stream)
  }

  /** All that the client has sent under the id so far is of one stream, in any order, repeated or not. */
  ghost predicate OneStream(primitives: P.Primitives, events: seq<Event>, client: SocketAddr, dcid: Cid, stream: seq<byte>) {
    forall packet <- ArrivedFrom(events, client) :: IsPiece(primitives, packet, dcid, stream)
  }

  lemma {:induction false} SubsequenceAmong<T(!new)>(a: seq<T>, b: seq<T>)
    requires Subsequence(a, b)
    ensures forall x <- a :: x in b
    decreases |b|
  {
    if a != [] {
      if Subsequence(a, b[..|b| - 1]) {
        SubsequenceAmong(a, b[..|b| - 1]);
      } else {
        SubsequenceAmong(a[..|a| - 1], b[..|b| - 1]);
        forall x | x in a ensures x in b {
          assert x in a[..|a| - 1] || x == a[|a| - 1];
        }
      }
    }
  }

  lemma {:induction false} ChunksAgree(primitives: P.Primitives, datagrams: seq<seq<byte>>, dcid: Cid, stream: seq<byte>)
    requires AllUnder(primitives, datagrams, dcid) && AllChunks(primitives, datagrams).Some?
    requires forall x <- datagrams :: IsPiece(primitives, x, dcid, stream)
    ensures R.AllAgree(AllChunks(primitives, datagrams).value, stream)
  {
    hide KeyId, PacketChunks, R.Agrees;
    if datagrams != [] {
      assert datagrams[|datagrams| - 1] in datagrams;
      ChunksAgree(primitives, datagrams[..|datagrams| - 1], dcid, stream);
    }
  }

  lemma HeldAgree(env: Env, t: Table, events: seq<Event>, peer: SocketAddr, dcid: Cid, now: nat, stream: seq<byte>)
    requires TableOk(env, t) && InOrder(events, t.pending) && Keyed(env.primitives, t.pending)
    requires OneStream(env.primitives, events, Normalize(peer), dcid, stream)
    ensures var p := PendingAt(t, peer, dcid, now);
            AllChunks(env.primitives, p.datagrams).Some? && R.AllAgree(AllChunks(env.primitives, p.datagrams).value, stream)
  {
    hide TableOk, KeyId, PacketChunks, R.AllAgree, R.InsertAll, R.ClientHello, R.Bounded, Normalize, IsPiece, Subsequence, ArrivedFrom,
      AllChunks;
    PendingAtOk(env, t, peer, dcid, now);
    var p := PendingAt(t, peer, dcid, now);
    var key := (Normalize(peer), dcid);
    if key in t.pending {
      SubsequenceAmong(p.datagrams, ArrivedFrom(events, key.0));
    }
    ChunksAgree(env.primitives, p.datagrams, dcid, stream);
  }

  lemma ArrivalIsPiece(primitives: P.Primitives, events: seq<Event>, e: Event, dcid: Cid, stream: seq<byte>)
    requires e.ClientDatagram? && OneStream(primitives, events + [e], Normalize(e.peer), dcid, stream)
    ensures OneStream(primitives, events, Normalize(e.peer), dcid, stream) && IsPiece(primitives, e.packet, dcid, stream)
  {
    hide IsPiece, ArrivedFrom, Normalize;
    ArrivesNext(events, e, Normalize(e.peer));
    var before := ArrivedFrom(events, Normalize(e.peer));
    assert forall packet <- before + [e.packet] :: IsPiece(primitives, packet, dcid, stream);
    assert forall packet <- before :: packet in before + [e.packet];
    assert e.packet in before + [e.packet];
  }

  lemma JoinAgree(a: seq<Chunk>, b: seq<Chunk>, stream: seq<byte>)
    requires R.AllAgree(a, stream) && R.AllAgree(b, stream)
    ensures R.AllAgree(a + b, stream)
  {
    hide R.Agrees;
  }

  /** In every reachable state, what a handshake holds and the datagram that arrives are pieces of the stream. */
  lemma ReachablePieces(env: Env, t: Table, before: seq<Event>, e: Event, d: P.Decrypted, chunks: seq<Chunk>,
                        hello: Hello.Hello, stream: seq<byte>)
    requires Initial(t) && e.ClientDatagram? && Opens(env, Run(env, t, before), e.packet, d, chunks)
    requires OneStream(env.primitives, before + [e], Normalize(e.peer), d.dcid, stream)
    requires hello.Valid() && hello.Write() <= stream
    ensures Pieces(env, Run(env, t, before), e.peer, e.packet, d, chunks, e.io.t1, hello, stream)
  {
    hide TableOk, Run, Initial, OneStream, Pinned, NoneMultiplied, InOrder, Keyed, Opens, R.AllAgree, R.InsertAll, AllChunks,
      Hello.Hello.Write, Hello.Hello.Valid, Normalize, Subsequence, PacketChunks, P.Decrypt;
    var mid := Run(env, t, before);
    InitialOk(env, t);
    RunKeeps(env, t, before);
    ReachableTraffic(env, t, before);
    assert Keyed(env.primitives, t.pending) by {
      NothingKeyed(env.primitives, t);
    }
    RunKeyed(env, t, before);
    ArrivalIsPiece(env.primitives, before, e, d.dcid, stream);
    HeldAgree(env, mid, before, e.peer, d.dcid, e.io.t1, stream);
    OpensHandshake(env, mid, e.peer, e.packet, d, chunks, e.io.t1);
    OpensUnder(env, mid, e.packet, d, chunks);
    JoinAgree(AllChunks(env.primitives, PendingAt(mid, e.peer, d.dcid, e.io.t1).datagrams).value, chunks, stream);
  }

  lemma NothingKeyed(primitives: P.Primitives, t: Table)
    requires Initial(t)
    ensures Keyed(primitives, t.pending)
  {
  }

  lemma OpensUnder(env: Env, t: Table, packet: seq<byte>, d: P.Decrypted, chunks: seq<Chunk>)
    requires Opens(env, t, packet, d, chunks)
    ensures KeyId(env.primitives, packet) == Some(d.dcid)
  {
    hide P.Decrypt, Crypto, PacketConnection, LbBackend;
  }

  /** The table that a run from the start reaches. */
  ghost function Reached(env: Env, t: Table, events: seq<Event>): (r: Table)
    requires Initial(t)
    ensures r == Run(env, t, events) && TableOk(env, r)
  {
    InitialOk(env, t);
    RunKeeps(env, t, events);
    Run(env, t, events)
  }

  /**
   End to end: while a client sends pieces of one stream under a destination id, in any order, the
   datagram that brings the last byte of its ClientHello establishes the route of the host name in it,
   with what was buffered in order of arrival and this datagram last; one that does not, waits.
   */
  lemma ReachableRoutes(env: Env, t: Table, before: seq<Event>, e: Event, d: P.Decrypted, chunks: seq<Chunk>,
                        hello: Hello.Hello, stream: seq<byte>) returns (p: Pending)
    requires Initial(t) && e.ClientDatagram? && Opens(env, Reached(env, t, before), e.packet, d, chunks)
    requires OneStream(env.primitives, before + [e], Normalize(e.peer), d.dcid, stream)
    requires hello.Valid() && hello.Write() <= stream
    requires WithinLimits(env, Reached(env, t, before), e.peer, e.packet, d, chunks, e.io.t1)
    ensures var mid := Reached(env, t, before);
            var key := (Normalize(e.peer), d.dcid);
            p.datagrams == HeldAt(mid, key) + [e.packet] && Normalize(p.clientAddr) == Normalize(e.peer) &&
            p.initialDcid == d.dcid && p.clientCids == SourceIds(env.primitives, p.datagrams) &&
            Step(env, mid, e) ==
            if !AllIn(env, mid, e.peer, d, chunks, e.io.t1, hello) then Out(mid.(pending := mid.pending[key := p]), true)
            else Routed(env, WithoutPending(mid, key), p, RouteForSni(mid.config, e.peer, hello.Host()), e.io)
  {
    hide TableOk, Run, Initial, OneStream, Opens, Hello.Hello.Write, Hello.Hello.Valid, Hello.Hello.Host, Normalize, AllIn, Room,
      WithinLimits, Pieces, ClientFate, HandshakeFate, RouteForSni, Establish, WithoutPending, HeldAt;
    var mid := Reached(env, t, before);
    ReachablePieces(env, t, before, e, d, chunks, hello, stream);
    LimitsLeaveRoom(env, mid, e.peer, e.packet, d, chunks, e.io.t1);
    OpensHandshake(env, mid, e.peer, e.packet, d, chunks, e.io.t1);
    HandshakeRoutesByHostName(env, mid, e.peer, e.packet, d, chunks, e.io.t1, hello, stream);
    FateConcernsPeer(env, mid, e.peer, e.packet, e.io.t1);
    HandshakeIds(env, mid, e.peer, e.packet, d, chunks, e.io.t1);
    p := ClientFate(env, mid, e.peer, e.packet, e.io.t1).p;
  }

  /** A handshake is known by its destination id, and wants the source ids of its datagrams. */
  lemma HandshakeIds(env: Env, t: Table, peer: SocketAddr, packet: seq<byte>, d: P.Decrypted, chunks: seq<Chunk>, now: nat)
    requires TableOk(env, t) && PacketChunks(env.primitives, packet) == Some((chunks, d.scid))
    ensures var fate := HandshakeFate(env, t, peer, packet, d, chunks, now);
            fate.Waits? || fate.Arrives? ==>
              fate.p.initialDcid == d.dcid && fate.p.clientCids == SourceIds(env.primitives, fate.p.datagrams) &&
              Normalize(fate.p.clientAddr) == Normalize(peer)
  {
    hide TableOk, RouteForSni, Normalize, PendingBytes, PacketChunks, AllChunks, SourceIds, R.InsertAll, R.ClientHello, R.Bounded,
      NameOf;
    PendingAtOk(env, t, peer, d.dcid, now);
    var p := PendingAt(t, peer, d.dcid, now);
    if !Absorb(p, packet, d.scid, chunks, now).Rejected? {
      AbsorbReplays(env.primitives, p, packet, chunks, d.scid, now);
    }
  }

  /** The handshake established on its route, if it has one. */
  ghost function Routed(env: Env, t: Table, p: Pending, route: Result<Route, RouteError>, io: Io): Out {
    if route.Success? then Establish(env, t, p, route.value, io) else Out(t, false)
  }
}
