/** From a buffered handshake to a registered path: what is routed, flushed and registered. */
module RouterHandshake {
  import opened Wrappers
  import opened Bytes
  import opened Addresses
  import opened Routing
  import opened Frames
  import opened RouterTable
  import opened RouterInvariant
  import opened RouterFate
  import QuicLb
  import L = LongHeader
  import P = InitialProtection
  import R = CryptoReassembly
  import O = ReassemblyOrder
  import Hello = ClientHello

  // ----- the name that is routed

  /** The chunks cover all of the ClientHello that the stream starts with. */
  ghost predicate HelloCovered(stream: seq<byte>, chunks: seq<Chunk>) {
    R.ClientHello(stream).Success? && R.ClientHello(stream).value.Some? &&
    forall q: nat | q < |R.ClientHello(stream).value.value| :: R.Covered(chunks, q)
  }

  lemma PrefixHello(bytes: seq<byte>, stream: seq<byte>, chunks: seq<Chunk>)
    requires R.LongestPrefix(bytes, stream, chunks) && R.ClientHello(bytes).Success?
    ensures R.ClientHello(bytes).value.Some? <==> HelloCovered(stream, chunks)
    ensures R.ClientHello(bytes).value.Some? ==> R.ClientHello(stream) == R.ClientHello(bytes)
  {
    hide R.Covered;
    if R.ClientHello(bytes).value.Some? {
      R.ClientHelloStable(bytes, stream);
    }
    if HelloCovered(stream, chunks) {
      HelloOfPrefix(bytes, stream);
    }
  }

  lemma HelloOfPrefix(bytes: seq<byte>, stream: seq<byte>)
    requires bytes <= stream && R.ClientHello(stream).Success? && R.ClientHello(stream).value.Some?
    requires |R.ClientHello(stream).value.value| <= |bytes|
    ensures R.ClientHello(bytes) == R.ClientHello(stream)
  {
    var hello := R.ClientHello(stream).value.value;
    assert |hello| >= 4 && bytes[..4] == stream[..4];
    assert bytes[..|hello|] == stream[..|hello|];
  }

  /** The datagrams buffered for a handshake, and the one that just arrived, as chunks. */
  ghost function ChunksWith(env: Env, t: Table, peer: SocketAddr, d: P.Decrypted, chunks: seq<Chunk>, now: nat): seq<Chunk>
    requires TableOk(env, t)
  {
    PendingAtOk(env, t, peer, d.dcid, now);
    AllChunks(env.primitives, PendingAt(t, peer, d.dcid, now).datagrams).value + chunks
  }

  /**
   While the datagrams of a handshake carry pieces of one stream, in whatever order they came, the
   handshake completes exactly when the pieces cover the stream's ClientHello. The name it is then
   routed by is the name in that stream, and it still holds its datagrams as they came.
   */
  lemma RoutesGroundTruth(env: Env, t: Table, peer: SocketAddr, packet: seq<byte>, d: P.Decrypted,
                          chunks: seq<Chunk>, now: nat, stream: seq<byte>)
    requires TableOk(env, t) && PacketChunks(env.primitives, packet) == Some((chunks, d.scid))
    requires R.AllAgree(ChunksWith(env, t, peer, d, chunks, now), stream)
    requires !Absorb(PendingAt(t, peer, d.dcid, now), packet, d.scid, chunks, now).Rejected?
    ensures var p := PendingAt(t, peer, d.dcid, now);
            var r := Absorb(p, packet, d.scid, chunks, now);
            (r.Complete? <==> HelloCovered(stream, ChunksWith(env, t, peer, d, chunks, now))) &&
            (r.Complete? ==> r.sni == NameOf(R.ClientHello(stream).value.value)) &&
            r.p.datagrams == p.datagrams + [packet]
  {
    hide TableOk, PacketChunks, AllChunks, NameOf, R.InsertAll, R.ClientHello, R.AllAgree, R.LongestPrefix, R.LongestBeyond,
      HelloCovered;
    PendingAtOk(env, t, peer, d.dcid, now);
    var p := PendingAt(t, peer, d.dcid, now);
    var all := ChunksWith(env, t, peer, d, chunks, now);
    AbsorbReplays(env.primitives, p, packet, chunks, d.scid, now);
    var r := Absorb(p, packet, d.scid, chunks, now);
    R.Exactness(stream, all);
    PrefixHello(r.p.crypto.bytes, stream, all);
  }

  /** A protected Initial, whatever follows it in its datagram, yields the CRYPTO chunks its sender wrote. */
  lemma ProtectedCarriesItsChunks(c: P.Primitives, plain: P.Plain, fs: seq<Frame>, rest: seq<byte>)
    requires c.Lawful() && plain.Valid() && WellFormed(fs) && plain.payload == Encode(fs)
    ensures var keys := c.keys(plain.layout.cids.dcid);
            PacketChunks(c, plain.Protect(c, keys) + rest) == Some((Chunks(fs), plain.layout.cids.scid))
  {
    hide P.Decrypt, Crypto, Encode, Chunks, P.Plain.Protect;
    P.RoundTrip(c, plain, None, rest);
    ParsesWhatIsWritten(fs);
  }

  /** The stream of a ClientHello, with whatever comes after it. */
  lemma HelloOfStream(hello: Hello.Hello, more: seq<byte>)
    requires hello.Valid()
    ensures R.ClientHello(hello.Write() + more) == Success(Some(hello.Write()))
    ensures NameOf(hello.Write()) == hello.Host()
  {
    hide Hello.Sni, Hello.Hello.Host, Hello.Hello.WriteBody, Write24, U24;
    var msg := hello.Write();
    var stream := msg + more;
    var n := |hello.WriteBody()|;
    assert |msg| == 4 + n && msg[0] == 1;
    assert msg[1..4] == Write24(n);
    assert stream[..4 + n] == msg;
    Hello.ReadsWritten(hello, []);
    assert msg + [] == msg;
  }

  /** Nothing stands in the way of buffering the datagram and collecting its chunks. */
  ghost predicate Room(env: Env, t: Table, peer: SocketAddr, packet: seq<byte>, d: P.Decrypted, chunks: seq<Chunk>, now: nat) {
    var p := PendingAt(t, peer, d.dcid, now);
    ((Normalize(peer), d.dcid) in t.pending || |t.pending| < env.limits.maxPendingHandshakes) &&
    PendingBytes(t) + |packet| <= env.limits.maxPendingBytes &&
    Push(p, packet).Some? && R.InsertAll(p.crypto, chunks).Success?
  }

  lemma AbsorbsAsWhole(env: Env, t: Table, peer: SocketAddr, d: P.Decrypted, chunks: seq<Chunk>, now: nat)
    requires TableOk(env, t)
    ensures R.InsertAll(PendingAt(t, peer, d.dcid, now).crypto, chunks) ==
            R.InsertAll(R.EMPTY, ChunksWith(env, t, peer, d, chunks, now))
  {
    hide TableOk, AllChunks, R.InsertAll, R.ClientHello, Normalize;
    PendingAtOk(env, t, peer, d.dcid, now);
    R.InsertAllConcat(R.State([], map[]), AllChunks(env.primitives, PendingAt(t, peer, d.dcid, now).datagrams).value, chunks);
  }

  /** In whatever order they come, chunks at no more than 128 offsets are never too many. */
  lemma FewAreCollected(env: Env, t: Table, peer: SocketAddr, d: P.Decrypted, chunks: seq<Chunk>, now: nat)
    requires TableOk(env, t)
    requires |O.Offsets(ChunksWith(env, t, peer, d, chunks, now))| <= R.MAX_CRYPTO_FRAGMENTS
    ensures R.InsertAll(PendingAt(t, peer, d.dcid, now).crypto, chunks).Success?
  {
    hide TableOk, ChunksWith, R.InsertAll, O.Offsets, Normalize;
    AbsorbsAsWhole(env, t, peer, d, chunks, now);
    var all := ChunksWith(env, t, peer, d, chunks, now);
    O.FewOffsetsFit(all, all);
  }

  /** The limits leave room: on handshakes, on bytes in all, on one handshake, and on the offsets of its chunks. */
  ghost predicate WithinLimits(env: Env, t: Table, peer: SocketAddr, packet: seq<byte>, d: P.Decrypted, chunks: seq<Chunk>, now: nat)
    requires TableOk(env, t)
  {
    var p := PendingAt(t, peer, d.dcid, now);
    ((Normalize(peer), d.dcid) in t.pending || |t.pending| < env.limits.maxPendingHandshakes) &&
    PendingBytes(t) + |packet| <= env.limits.maxPendingBytes &&
    |p.datagrams| < 32 && p.bufferedBytes + |packet| <= 131072 &&
    |O.Offsets(ChunksWith(env, t, peer, d, chunks, now))| <= 128
  }

  lemma LimitsLeaveRoom(env: Env, t: Table, peer: SocketAddr, packet: seq<byte>, d: P.Decrypted, chunks: seq<Chunk>, now: nat)
    requires TableOk(env, t) && WithinLimits(env, t, peer, packet, d, chunks, now)
    ensures Room(env, t, peer, packet, d, chunks, now)
  {
    hide TableOk, ChunksWith, R.InsertAll, O.Offsets, Normalize, PendingBytes;
    FewAreCollected(env, t, peer, d, chunks, now);
  }

  lemma PiecesFit(env: Env, t: Table, peer: SocketAddr, packet: seq<byte>, d: P.Decrypted,
                  chunks: seq<Chunk>, now: nat, stream: seq<byte>)
    requires TableOk(env, t) && PacketChunks(env.primitives, packet) == Some((chunks, d.scid))
    requires R.AllAgree(ChunksWith(env, t, peer, d, chunks, now), stream)
    requires R.ClientHello(stream).Success? && R.ClientHello(stream).value.Some?
    ensures var p := PendingAt(t, peer, d.dcid, now);
            Absorb(p, packet, d.scid, chunks, now).Rejected? <==>
            Push(p, packet).None? || R.InsertAll(p.crypto, chunks).Failure?
  {
    hide TableOk, PacketChunks, NameOf, R.InsertAll, R.ClientHello, R.AllAgree, R.LongestBeyond, ChunksWith, PendingAt;
    AbsorbsAsWhole(env, t, peer, d, chunks, now);
    var inserted := R.InsertAll(PendingAt(t, peer, d.dcid, now).crypto, chunks);
    if inserted.Success? {
      R.Exactness(stream, ChunksWith(env, t, peer, d, chunks, now));
      if R.ClientHello(inserted.value.bytes).Failure? {
        R.ClientHelloStable(inserted.value.bytes, stream);
      }
    }
  }

  /**
   Pieces of a stream that starts with a ClientHello are refused only for want of room, and never for
   their number while they have at most 128 offsets beyond the start.
   */
  lemma PiecesAreTaken(env: Env, t: Table, peer: SocketAddr, packet: seq<byte>, d: P.Decrypted,
                       chunks: seq<Chunk>, now: nat, stream: seq<byte>)
    requires TableOk(env, t) && PacketChunks(env.primitives, packet) == Some((chunks, d.scid))
    requires R.AllAgree(ChunksWith(env, t, peer, d, chunks, now), stream)
    requires R.ClientHello(stream).Success? && R.ClientHello(stream).value.Some?
    ensures var p := PendingAt(t, peer, d.dcid, now);
            Absorb(p, packet, d.scid, chunks, now).Rejected? ==>
            |p.datagrams| >= 32 || p.bufferedBytes + |packet| > 131072 ||
            |O.Offsets(ChunksWith(env, t, peer, d, chunks, now))| > 128
  {
    hide TableOk, PacketChunks, Absorb, R.InsertAll, R.ClientHello, R.AllAgree, ChunksWith, PendingAt, O.Offsets;
    PiecesFit(env, t, peer, packet, d, chunks, now, stream);
    if |O.Offsets(ChunksWith(env, t, peer, d, chunks, now))| <= R.MAX_CRYPTO_FRAGMENTS {
      FewAreCollected(env, t, peer, d, chunks, now);
    }
  }

  /** The datagrams buffered and the one that arrives carry pieces of the stream, which starts with the hello. */
  ghost predicate Pieces(env: Env, t: Table, peer: SocketAddr, packet: seq<byte>, d: P.Decrypted, chunks: seq<Chunk>,
                         now: nat, hello: Hello.Hello, stream: seq<byte>)
  {
    TableOk(env, t) && PacketChunks(env.primitives, packet) == Some((chunks, d.scid)) &&
    hello.Valid() && hello.Write() <= stream && R.AllAgree(ChunksWith(env, t, peer, d, chunks, now), stream)
  }

  /** They hold all of the hello. */
  ghost predicate AllIn(env: Env, t: Table, peer: SocketAddr, d: P.Decrypted, chunks: seq<Chunk>, now: nat, hello: Hello.Hello)
    requires TableOk(env, t)
  {
    hello.Valid() && forall q: nat | q < |hello.Write()| :: R.Covered(ChunksWith(env, t, peer, d, chunks, now), q)
  }

  /**
   So a client's ClientHello, cut into frames and datagrams in any order, is routed by its own host
   name, and at the moment its last byte is in: until then every datagram waits.
   */
  lemma HandshakeRoutesByHostName(env: Env, t: Table, peer: SocketAddr, packet: seq<byte>, d: P.Decrypted,
                                  chunks: seq<Chunk>, now: nat, hello: Hello.Hello, stream: seq<byte>)
    requires Pieces(env, t, peer, packet, d, chunks, now, hello, stream)
    ensures var key := (Normalize(peer), d.dcid);
            var fate := HandshakeFate(env, t, peer, packet, d, chunks, now);
            if !Room(env, t, peer, packet, d, chunks, now) then fate.Dropped?
            else if AllIn(env, t, peer, d, chunks, now, hello)
            then fate.Arrives? && fate.spent == Some(key) && fate.route == RouteForSni(t.config, peer, hello.Host())
            else fate.Waits? && fate.key == key
  {
    hide TableOk, PacketChunks, Absorb, NameOf, R.ClientHello, R.AllAgree, R.Covered, ChunksWith, Hello.Hello.Write,
      Hello.Hello.Host, RouteForSni, PendingBytes, Push, R.InsertAll, Normalize, O.Offsets, PendingAt;
    var r := Absorb(PendingAt(t, peer, d.dcid, now), packet, d.scid, chunks, now);
    HelloOfStream(hello, stream[|hello.Write()|..]);
    assert hello.Write() + stream[|hello.Write()|..] == stream;
    PiecesFit(env, t, peer, packet, d, chunks, now, stream);
    if !r.Rejected? {
      RoutesGroundTruth(env, t, peer, packet, d, chunks, now, stream);
    }
  }

  /** An Initial of version 1 under its own keys, for no connection and no QUIC-LB server, with frames that parse. */
  ghost predicate Opens(env: Env, t: Table, packet: seq<byte>, d: P.Decrypted, chunks: seq<Chunk>) {
    packet != [] && PacketConnection(t.connections, packet).Success? &&
    var (long, connId) := PacketConnection(t.connections, packet).value;
    connId.None? && long.Some? && LbBackend(t.config, packet, long).None? &&
    long.value.version == L.VERSION_1 && long.value.packetType == L.TYPE_INITIAL &&
    P.Decrypt(env.primitives, packet, None) == Success(d) && Crypto(d.payload) == Success(chunks)
  }

  lemma OpensHandshake(env: Env, t: Table, peer: SocketAddr, packet: seq<byte>, d: P.Decrypted, chunks: seq<Chunk>, now: nat)
    requires Opens(env, t, packet, d, chunks)
    ensures ClientFate(env, t, peer, packet, now) == HandshakeFate(env, t, peer, packet, d, chunks, now)
    ensures PacketChunks(env.primitives, packet) == Some((chunks, d.scid))
  {
    hide HandshakeFate, LbFate, AffinityFate, P.Decrypt, Crypto, PacketConnection, LbBackend;
  }

  lemma DecryptedIds(primitives: P.Primitives, packet: seq<byte>)
    requires P.Decrypt(primitives, packet, None).Success?
    ensures L.Parse(packet).Success? && L.Parse(packet).value.Some?
    ensures var long := L.Parse(packet).value.value;
            long.dcid == P.Decrypt(primitives, packet, None).value.dcid &&
            long.version == L.VERSION_1 && long.packetType == L.TYPE_INITIAL
  {
    hide P.Nonce, P.MaskNumber, Xor, L.Parse;
  }

  lemma HandshakeKey(env: Env, t: Table, peer: SocketAddr, packet: seq<byte>, d: P.Decrypted, chunks: seq<Chunk>, now: nat)
    requires TableOk(env, t)
    ensures var fate := HandshakeFate(env, t, peer, packet, d, chunks, now); fate.Arrives? ==> fate.p.initialDcid == d.dcid
  {
    hide TableOk, RouteForSni, Normalize, PendingBytes, R.InsertAll, R.ClientHello;
    PendingAtOk(env, t, peer, d.dcid, now);
  }

  /** The whole step: the datagram that completes a ClientHello establishes the route of its host name. */
  lemma RoutesByHostName(env: Env, t: Table, peer: SocketAddr, packet: seq<byte>, d: P.Decrypted, chunks: seq<Chunk>,
                         io: Io, hello: Hello.Hello, stream: seq<byte>) returns (p: Pending)
    requires Opens(env, t, packet, d, chunks) && Pieces(env, t, peer, packet, d, chunks, io.t1, hello, stream)
    requires Room(env, t, peer, packet, d, chunks, io.t1) && AllIn(env, t, peer, d, chunks, io.t1, hello)
    ensures p.datagrams == HeldAt(t, (Normalize(peer), d.dcid)) + [packet] && Normalize(p.clientAddr) == Normalize(peer)
    ensures var mid := WithoutPending(t, (Normalize(peer), d.dcid));
            var route := RouteForSni(t.config, peer, hello.Host());
            ClientStep(env, t, peer, packet, io) ==
            if route.Success? then Establish(env, mid, p, route.value, io) else Out(mid, false)
  {
    hide TableOk, Opens, Room, AllIn, ClientFate, HandshakeFate, Establish, RouteForSni, PacketChunks, Normalize,
      ChunksWith, R.AllAgree, Hello.Hello.Write, Hello.Hello.Host, Hello.Hello.Valid;
    OpensHandshake(env, t, peer, packet, d, chunks, io.t1);
    HandshakeRoutesByHostName(env, t, peer, packet, d, chunks, io.t1, hello, stream);
    FateConcernsPeer(env, t, peer, packet, io.t1);
    p := ClientFate(env, t, peer, packet, io.t1).p;
  }

  // ----- all or nothing

  /** The tables and the id counter are as they were; only drops are counted. */
  ghost predicate NothingRegistered(t: Table, t': Table) {
    t'.connections == t.connections && t'.shared == t.shared && t'.nextId == t.nextId && t'.pending == t.pending &&
    t'.toBackend == t.toBackend && t'.toClient == t.toClient
  }

  /**
   The handshake's datagrams went out on connection id, in order, its ids are routed there, and no
   other connection changed. A connection made for it takes all its ids, one it joins only those that
   QUIC-LB does not decode.
   */
  ghost predicate Registered(t: Table, t': Table, id: nat, p: Pending, timeout: Option<nat>, now: nat) {
    id in t'.connections && t'.connections == t.connections[id := t'.connections[id]] &&
    t'.pending == t.pending && t'.toClient == t.toClient && t'.dropped == t.dropped &&
    t'.toBackend == t.toBackend + Log(id, t'.connections[id], p.datagrams) &&
    t'.nextId == (if id in t.connections then t.nextId else t.nextId + 1) &&
    Carries(t.connections, id, t'.connections[id], p, timeout, now) &&
    (forall cid :: cid in t'.connections[id].cids <==>
       (id in t.connections && cid in t.connections[id].cids) ||
       (Asked(p, cid) && (id in t.connections ==> QuicLb.Lookup(t.config.quicLb, cid).None?))) &&
    forall cid <- t'.connections[id].cids :: OwnerOf(t'.connections, cid) == Some(id)
  }

  /** A handshake asks for its destination id and for the source ids of its datagrams, unless they are empty. */
  ghost predicate Asked(p: Pending, cid: Cid) {
    cid != [] && (cid == p.initialDcid || cid in p.clientCids)
  }

  /** The deadline is that of the path or that many after now, whichever comes first. */
  ghost predicate Lapses(deadline: Option<nat>, before: Option<nat>, timeout: Option<nat>, now: nat) {
    match (before, timeout)
    case (None, None) => deadline == None
    case (None, Some(n)) => deadline == Some(now + n)
    case (Some(b), None) => deadline == Some(b)
    case (Some(b), Some(n)) => deadline.Some? && deadline.value <= b && deadline.value <= now + n && deadline.value in {b, now + n}
  }

  /** The connection is the handshake's client's, used just now, with the earlier of both deadlines. */
  ghost predicate Carries(conns: Connections, id: nat, c: Connection, p: Pending, timeout: Option<nat>, now: nat) {
    SameEndpoint(c.clientAddr, p.clientAddr) && c.lastSeen == now &&
    Lapses(c.deadline, if id in conns then conns[id].deadline else None, timeout, now) &&
    if id in conns then c.backend == conns[id].backend && c.created == conns[id].created &&
                        c.initialKeyDcid == conns[id].initialKeyDcid
    else c.created == now && c.initialKeyDcid == p.initialDcid
  }

  lemma Owned(env: Env, t: Table, id: nat, cid: Cid)
    requires TableOk(env, t) && Owns(t.connections, id, cid)
    ensures OwnerOf(t.connections, cid) == Some(id)
  {
  }

  lemma AllOwned(env: Env, t: Table, id: nat)
    requires TableOk(env, t) && id in t.connections
    ensures forall cid <- t.connections[id].cids :: OwnerOf(t.connections, cid) == Some(id)
  {
    hide TableOk, OwnerOf;
    forall cid | cid in t.connections[id].cids ensures OwnerOf(t.connections, cid) == Some(id) {
      Owned(env, t, id, cid);
    }
  }

  lemma RegistrableAsked(t: Table, p: Pending)
    ensures forall cid :: cid in p.Requested() <==> Asked(p, cid)
    ensures forall cid :: cid in Registrable(t, p) <==> Asked(p, cid) && QuicLb.Lookup(t.config.quicLb, cid).None?
  {
    hide QuicLb.Lookup;
  }

  lemma JoinRegisters(env: Env, t: Table, id: nat, p: Pending, route: Route, io: Io)
    requires TableOk(env, t) && id in t.connections && Refusal(env, t, p, Some(id)).None?
    requires t.connections[id].Client() == Normalize(p.clientAddr)
    requires Join(env, t, id, p, route, io).ok && !t.connections[id].Expired(io.t2, env.idleTimeout)
    ensures Registered(t, Join(env, t, id, p, route, io).t, id, p, route.timeout, io.t2)
  {
    hide TableOk, Connection.Expired, QuicLb.Lookup, OwnerOf, Normalize, Refusal, Pending.Requested, Registrable;
    var out := Join(env, t, id, p, route, io);
    JoinKeeps(env, t, id, p, route, io);
    AllOwned(env, out.t, id);
    NormalizeIdentifies(t.connections[id].clientAddr, p.clientAddr);
    RegistrableAsked(t, p);
    assert p.datagrams[..|p.datagrams|] == p.datagrams;
    assert Log(id, t.connections[id], p.datagrams) == Log(id, out.t.connections[id], p.datagrams);
  }

  lemma CreateRegisters(env: Env, t: Table, p: Pending, addr: SocketAddr, route: Route, io: Io)
    requires TableOk(env, t) && Refusal(env, t, p, None).None? && Existing(t, Normalize(p.clientAddr), addr).None?
    requires Create(env, t, p, addr, route, io).ok
    ensures Registered(t, Create(env, t, p, addr, route, io).t, t.nextId, p, route.timeout, io.t2)
    ensures t.nextId !in t.connections
  {
    hide TableOk, QuicLb.Lookup, QuicLb.IsServer, OwnerOf, Normalize, Refusal, Pending.Requested, Existing, Registrable;
    var out := Create(env, t, p, addr, route, io);
    CreateKeeps(env, t, p, addr, route, io);
    TableIds(env, t);
    AllOwned(env, out.t, t.nextId);
    RegistrableAsked(t, p);
    assert p.datagrams[..|p.datagrams|] == p.datagrams;
  }

  /** The shared path that a handshake on this route joins, if there is one. */
  ghost function Joined(t: Table, p: Pending, route: Route): (r: Option<nat>)
    ensures r.Some? ==> r.value in t.connections && t.connections[r.value].Client() == Normalize(p.clientAddr)
  {
    if route.backend.Udp? then Existing(t, Normalize(p.clientAddr), route.backend.addr) else None
  }

  /** The route leads somewhere, no check refuses the handshake, and a path it joins is alive. */
  ghost predicate Accepted(env: Env, t: Table, p: Pending, route: Route, io: Io) {
    route.backend.Udp? && Refusal(env, t, p, Joined(t, p, route)).None? &&
    (Joined(t, p, route).Some? ==> !t.connections[Joined(t, p, route).value].Expired(io.t2, env.idleTimeout))
  }

  /**
   A registration is refused as a whole, leaving the tables, the indexes and the id counter alone; or,
   exactly when it is accepted, it flushes all the buffered datagrams in order of arrival on the path
   it joins, or else on a new one, and routes its ids there.
   */
  lemma RegistrationIsAtomic(env: Env, t: Table, p: Pending, route: Route, io: Io)
    requires TableOk(env, t) && Establish(env, t, p, route, io).ok
    ensures var t' := Establish(env, t, p, route, io).t;
            if Accepted(env, t, p, route, io)
            then Registered(t, t', Joined(t, p, route).GetOr(t.nextId), p, route.timeout, io.t2)
            else NothingRegistered(t, t')
  {
    hide TableOk, Refusal, Join, Create, Existing, Normalize, Registered, Connection.Expired;
    if route.backend.Udp? {
      var existing := Existing(t, Normalize(p.clientAddr), route.backend.addr);
      if Refusal(env, t, p, existing).None? {
        match existing
        case Some(id) =>
          if t.connections[id].Expired(io.t2, env.idleTimeout) {
            ExpiredJoin(env, t, id, p, route, io);
          } else {
            JoinRegisters(env, t, id, p, route, io);
          }
        case None => CreateRegisters(env, t, p, route.backend.addr, route, io);
      }
    }
  }

  lemma ExpiredJoin(env: Env, t: Table, id: nat, p: Pending, route: Route, io: Io)
    requires id in t.connections && t.connections[id].Expired(io.t2, env.idleTimeout)
    ensures NothingRegistered(t, Join(env, t, id, p, route, io).t)
  {
    hide Connection.Expired;
  }

  // ----- peer affinity

  /**
   A datagram without a known id is forwarded only on its client's single live connection; and an
   Initial only if it opens under the keys of that connection.
   */
  lemma AffinityIsUnambiguous(env: Env, t: Table, peer: SocketAddr, packet: seq<byte>, long: Option<L.Cids>,
                              validateInitial: bool, io: Io)
    ensures var t' := Meet(env, t, peer, packet, io, AffinityFate(env, t, peer, packet, long, validateInitial, io.t1)).t;
            t'.toBackend == t.toBackend ||
            exists id :: LivePeer(env, t.connections, Normalize(peer), io.t1, id) &&
              (forall other :: LivePeer(env, t.connections, Normalize(peer), io.t1, other) ==> other == id) &&
              t'.toBackend == t.toBackend + [Forwarded(id, t.connections[id].backend, Normalize(peer), packet)] &&
              (validateInitial ==>
                 P.Decrypt(env.primitives, packet, Some(t.connections[id].initialKeyDcid)).Success?)
  {
    hide P.Decrypt, Connection.Expired, Normalize, QuicLb.Lookup, OwnerOf, LivePeer, Establish;
    var id := PeerConnection(env, t.connections, peer, io.t1);
    if id.Some? {
      assert LivePeer(env, t.connections, Normalize(peer), io.t1, id.value);
    }
  }

  // ----- QUIC-LB takes precedence

  ghost predicate OnlyTo(t: Table, t': Table, client: SocketAddr, backend: SocketAddr) {
    t.toBackend <= t'.toBackend && t'.pending == t.pending && t'.toClient == t.toClient &&
    forall i | |t.toBackend| <= i < |t'.toBackend| ::
      t'.toBackend[i].client == client && t'.toBackend[i].backend == backend
  }

  lemma JoinOnlyTo(env: Env, t: Table, id: nat, p: Pending, route: Route, io: Io)
    requires id in t.connections && t.connections[id].Client() == Normalize(p.clientAddr)
    ensures OnlyTo(t, Join(env, t, id, p, route, io).t, Normalize(p.clientAddr), t.connections[id].backend)
  {
    hide Connection.Expired, Registrable, Normalize;
  }

  lemma CreateOnlyTo(env: Env, t: Table, p: Pending, addr: SocketAddr, route: Route, io: Io)
    requires Normalize(addr) == addr
    ensures OnlyTo(t, Create(env, t, p, addr, route, io).t, Normalize(p.clientAddr), addr)
  {
    hide QuicLb.IsServer, Pending.Requested, Normalize;
  }

  lemma EstablishOnlyTo(env: Env, t: Table, p: Pending, route: Route, io: Io)
    requires route.backend.Udp? && QuicLb.IsServer(t.config.quicLb, route.backend.addr)
    requires Normalize(route.backend.addr) == route.backend.addr
    ensures OnlyTo(t, Establish(env, t, p, route, io).t, Normalize(p.clientAddr), route.backend.addr)
  {
    hide Refusal, Join, Create, QuicLb.IsServer, Normalize, SharedPath;
    var existing := Existing(t, Normalize(p.clientAddr), route.backend.addr);
    match existing
    case Some(id) => JoinOnlyTo(env, t, id, p, route, io);
    case None => CreateOnlyTo(env, t, p, route.backend.addr, route, io);
  }

  lemma ForwardOnlyTo(env: Env, t: Table, id: nat, peer: SocketAddr, packet: seq<byte>, scid: Cid, now: nat, sendOk: bool)
    requires id in t.connections
    ensures OnlyTo(t, ForwardClient(env, t, id, peer, packet, scid, now, sendOk).t, Normalize(peer), t.connections[id].backend)
  {
    hide Connection.Expired, QuicLb.Lookup, OwnerOf, Normalize;
  }

  /** A datagram whose id decodes to a backend goes to that backend or nowhere, and is never buffered. */
  lemma DecodedGoesToItsBackend(env: Env, t: Table, peer: SocketAddr, packet: seq<byte>, io: Io, addr: SocketAddr)
    requires packet != [] && L.Parse(packet).Success?
    requires LbBackend(t.config, packet, L.Parse(packet).value) == Some(addr)
    ensures OnlyTo(t, ClientStep(env, t, peer, packet, io).t, Normalize(peer), addr)
  {
    hide ForwardClient, Establish, UnroutedFate, OwnerOf, LongestOwnerOf, SharedPath, Normalize, Connection.Expired,
      QuicLb.Lookup, L.Parse, QuicLb.IsServer, QuicLb.Valid;
    var long := L.Parse(packet).value;
    assert PacketConnection(t.connections, packet).Success? &&
           PacketConnection(t.connections, packet).value.0 == long;
    LbAddress(t.config, packet, long);
    match SharedPath(t.connections, t.shared, (Normalize(peer), addr))
    case Some(id) =>
      ForwardOnlyTo(env, t, id, peer, packet, [], io.t2, io.sends(0));
    case None =>
      var p := Push(NewPending(peer, [], io.t1), packet);
      if p.Some? {
        EstablishOnlyTo(env, t, p.value, Route(Udp(addr), t.config.maxLifetime), io);
      }
  }

  lemma LbAddress(config: LoadedConfig, packet: seq<byte>, long: Option<L.Cids>)
    requires LbBackend(config, packet, long).Some?
    ensures var addr := LbBackend(config, packet, long).value;
            QuicLb.IsServer(config.quicLb, addr) && Normalize(addr) == addr
  {
    QuicLb.LookupIsServer(config.quicLb, LbCid(packet, long).value);
  }
}
