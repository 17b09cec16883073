/**
 The life of a connection in terms of its own fields and of the packets on the wire: who may use it,
 what it learns from a packet, how long it lives, and which key opens its Initials.
 */
module RouterConnections {
  import opened Wrappers
  import opened Bytes
  import opened Addresses
  import opened Routing
  import opened Frames
  import opened RouterTable
  import opened RouterInvariant
  import opened RouterFate
  import opened RouterHandshake
  import opened RouterPinning
  import QuicLb
  import L = LongHeader
  import P = InitialProtection

  // ----- what a packet says

  /** The packet starts with this long header. */
  ghost predicate Long(packet: seq<byte>, first: byte, h: L.Cids) {
    L.Writable(first, h) && L.WriteLong(first, h) <= packet
  }

  lemma LongParses(packet: seq<byte>, first: byte, h: L.Cids)
    requires Long(packet, first, h)
    ensures packet != [] && packet[0] == first && L.Parse(packet) == Success(Some(h))
  {
    hide L.Parse, L.Writable;
    assert L.WriteLong(first, h)[0] == first by {
      FirstIsWritten(first, h);
    }
    L.Grammar(packet, h);
  }

  lemma FirstIsWritten(first: byte, h: L.Cids)
    requires L.Writable(first, h)
    ensures L.WriteLong(first, h) != [] && L.WriteLong(first, h)[0] == first
  {
  }

  /** The first byte of a short header. */
  ghost predicate Short(packet: seq<byte>) {
    packet != [] && packet[0] < 128
  }

  lemma ShortParses(packet: seq<byte>)
    requires Short(packet)
    ensures L.Parse(packet) == Success(None)
  {
    L.ShortExactly(packet);
  }

  // ----- who may use it

  /** A long header names the connection that holds its destination id, unless QUIC-LB decodes it. */
  ghost predicate LongNames(t: Table, first: byte, h: L.Cids, id: nat) {
    Owns(t.connections, id, h.dcid) && QuicLb.Lookup(t.config.quicLb, h.dcid).None?
  }

  /** The connection holds the m bytes after the first one. */
  ghost predicate OwnsNext(t: Table, id: nat, packet: seq<byte>, m: nat) {
    1 <= m < |packet| && Owns(t.connections, id, packet[1..1 + m])
  }

  /** A short header names the connection that holds the longest id it goes on with, unless QUIC-LB decodes 17 bytes. */
  ghost predicate ShortNames(t: Table, packet: seq<byte>, n: nat, id: nat) {
    Short(packet) && OwnsNext(t, id, packet, n) && (forall m, other | m > n :: !OwnsNext(t, other, packet, m)) &&
    (|packet| >= 18 ==> QuicLb.Lookup(t.config.quicLb, packet[1..18]).None?)
  }

  ghost predicate Names(t: Table, packet: seq<byte>, id: nat, scid: Cid) {
    (exists first, h :: Long(packet, first, h) && LongNames(t, first, h, id) && scid == h.scid) ||
    (scid == [] && exists n :: ShortNames(t, packet, n, id))
  }

  lemma {:induction false} LongestIs(env: Env, t: Table, bytes: seq<byte>, n: nat, k: nat, id: nat)
    requires TableOk(env, t) && 1 <= k <= n <= |bytes| && Owns(t.connections, id, bytes[..k])
    requires forall m, other | k < m <= n :: !Owns(t.connections, other, bytes[..m])
    ensures LongestOwnerOf(t.connections, bytes, n) == Some(id)
  {
    hide TableOk, OwnerOf;
    if n == k {
      Owned(env, t, id, bytes[..k]);
    } else {
      OwnerIsHere(t.connections, bytes[..n]);
      LongestIs(env, t, bytes, n - 1, k, id);
    }
  }

  lemma LongNamed(env: Env, t: Table, packet: seq<byte>, id: nat, first: byte, h: L.Cids)
    requires TableOk(env, t) && Long(packet, first, h) && LongNames(t, first, h, id)
    ensures packet != [] && PacketConnection(t.connections, packet) == Success((Some(h), Some(id)))
    ensures LbBackend(t.config, packet, Some(h)).None?
  {
    hide TableOk, L.Parse, QuicLb.Lookup, OwnerOf, Long;
    LongParses(packet, first, h);
    Owned(env, t, id, h.dcid);
  }

  lemma ShortNamed(env: Env, t: Table, packet: seq<byte>, id: nat, n: nat)
    requires TableOk(env, t) && ShortNames(t, packet, n, id)
    ensures packet != [] && PacketConnection(t.connections, packet) == Success((None, Some(id)))
    ensures LbBackend(t.config, packet, None).None?
  {
    hide TableOk, L.Parse, QuicLb.Lookup, LongestOwnerOf, Owns;
    ShortParses(packet);
    var bytes := packet[1..];
    assert bytes[..n] == packet[1..1 + n];
    forall m, other | n < m <= |bytes| ensures !Owns(t.connections, other, bytes[..m]) {
      assert bytes[..m] == packet[1..1 + m] && !OwnsNext(t, other, packet, m);
    }
    LongestIs(env, t, bytes, |bytes|, n, id);
  }

  lemma NamedFate(env: Env, t: Table, peer: SocketAddr, packet: seq<byte>, now: nat, id: nat, scid: Cid)
    requires TableOk(env, t) && Names(t, packet, id, scid)
    ensures id in t.connections &&
            ClientFate(env, t, peer, packet, now) ==
            if SameEndpoint(peer, t.connections[id].clientAddr) then Along(id, scid) else Dropped(None, UnexpectedPeer, 1)
  {
    hide TableOk, PacketConnection, LbBackend, UnroutedFate, LbFate, Normalize, SameEndpoint, Long, QuicLb.Lookup;
    if first, h :| Long(packet, first, h) && LongNames(t, first, h, id) && scid == h.scid {
      LongNamed(env, t, packet, id, first, h);
    } else {
      var n :| ShortNames(t, packet, n, id);
      ShortNamed(env, t, packet, id, n);
    }
    NormalizeIdentifies(peer, t.connections[id].clientAddr);
  }

  /**
   A datagram that names a connection is forwarded on it when it comes from the endpoint of its client;
   from any other address or port it is dropped, and the connection stays as it was.
   */
  lemma NamedIsForwarded(env: Env, t: Table, peer: SocketAddr, packet: seq<byte>, io: Io, id: nat, scid: Cid)
    requires TableOk(env, t) && Names(t, packet, id, scid)
    ensures id in t.connections
    ensures !SameEndpoint(peer, t.connections[id].clientAddr) ==>
              ClientStep(env, t, peer, packet, io) == Out(t.Drop(UnexpectedPeer, 1), true)
    ensures SameEndpoint(peer, t.connections[id].clientAddr) && Alive(t.connections[id], io.t2, env.idleTimeout) && io.sends(0) ==>
              ClientStep(env, t, peer, packet, io).t.toBackend ==
              t.toBackend + [Forwarded(id, t.connections[id].backend, Normalize(peer), packet)]
  {
    hide TableOk, ClientFate, QuicLb.Lookup, Connection.Expired, Normalize, SameEndpoint, Alive, Names, OwnerOf;
    NamedFate(env, t, peer, packet, io.t1, id, scid);
    ExpiredInFields(t.connections[id], io.t2, env.idleTimeout);
  }

  /** Whatever happens, a connection goes on being one endpoint's: neither its address nor its port is taken over. */
  lemma EndpointStays(env: Env, t: Table, e: Event, id: nat)
    requires TableOk(env, t) && id in t.connections && id in Step(env, t, e).t.connections
    ensures SameEndpoint(t.connections[id].clientAddr, Step(env, t, e).t.connections[id].clientAddr)
  {
    hide TableOk, Step, Normalize, SameEndpoint, SendsOnPaths, SparesExpired;
    StepGood(env, t, e, 0);
    NormalizeIdentifies(t.connections[id].clientAddr, Step(env, t, e).t.connections[id].clientAddr);
  }

  // ----- how long it lives

  /** Used within the idle timeout, and not at its deadline yet. */
  ghost predicate Alive(c: Connection, now: nat, idleTimeout: nat) {
    idleTimeout > 0 && now < c.lastSeen + idleTimeout && (c.deadline.Some? ==> now < c.deadline.value)
  }

  lemma ExpiredInFields(c: Connection, now: nat, idleTimeout: nat)
    ensures c.Expired(now, idleTimeout) <==> !Alive(c, now, idleTimeout)
  {
  }

  /** A cleanup keeps exactly the connections that are alive, as they are. */
  lemma CleanupKeepsAlive(env: Env, t: Table, now: nat, id: nat)
    ensures var t' := CleanupStep(env, t, now);
            (id in t'.connections <==> id in t.connections && Alive(t.connections[id], now, env.idleTimeout)) &&
            (id in t'.connections ==> t'.connections[id] == t.connections[id])
  {
    hide Connection.Expired, Alive, Stale;
    if id in t.connections {
      ExpiredInFields(t.connections[id], now, env.idleTimeout);
    }
  }

  /**
   From the moment a connection has been unused for the idle timeout, or its deadline has come, nothing is
   sent on it either way and it neither changes nor learns, over any run, until it is removed for good.
   */
  lemma LifetimeIsObeyed(env: Env, t: Table, events: seq<Event>, id: nat, now: nat)
    requires TableOk(env, t) && id in t.connections && Monotone(events, now)
    requires now >= t.connections[id].lastSeen + env.idleTimeout ||
             (t.connections[id].deadline.Some? && now >= t.connections[id].deadline.value)
    ensures var t' := Run(env, t, events);
            t.toBackend <= t'.toBackend && t.toClient <= t'.toClient && !SentOn(t, t', id) &&
            (id in t'.connections ==> t'.connections[id] == t.connections[id])
  {
    hide TableOk, Run, Connection.Expired, SentOn, Monotone;
    ExpiredInFields(t.connections[id], now, env.idleTimeout);
    NoResurrection(env, t, events, id, now);
  }

  /** Traffic of the client that is let through refreshes the connection and becomes its reply address. */
  lemma ForwardRefreshes(env: Env, t: Table, peer: SocketAddr, packet: seq<byte>, io: Io, id: nat, scid: Cid)
    requires id in t.connections && ClientFate(env, t, peer, packet, io.t1) == Along(id, scid)
    requires Alive(t.connections[id], io.t2, env.idleTimeout)
    ensures var t' := ClientStep(env, t, peer, packet, io).t;
            id in t'.connections && t'.connections[id].lastSeen == io.t2 && t'.connections[id].clientAddr == peer &&
            t'.connections[id].initialKeyDcid == t.connections[id].initialKeyDcid
  {
    hide ClientFate, Connection.Expired, Alive, Normalize, QuicLb.Lookup, OwnerOf;
    ExpiredInFields(t.connections[id], io.t2, env.idleTimeout);
  }

  // ----- what it learns

  /** The connection may take the id: not empty, not decodable, nobody else's, and within its budget. */
  ghost predicate Learnable(env: Env, t: Table, id: nat, cid: Cid) {
    id in t.connections && cid != [] && QuicLb.Lookup(t.config.quicLb, cid).None? &&
    (forall other :: !Owns(t.connections, other, cid)) && |t.connections[id].cids| < env.limits.maxCidsPerPath
  }

  lemma LearnsIt(env: Env, t: Table, id: nat, cid: Cid)
    requires Learnable(env, t, id, cid)
    ensures Owns(Learn(env, t, id, cid).connections, id, cid)
  {
    hide QuicLb.Lookup, OwnerOf;
    OwnerIsHere(t.connections, cid);
  }

  /** A backend's long header teaches the connection its source id, and a short one nothing. */
  lemma BackendTeaches(env: Env, t: Table, id: nat, packet: seq<byte>, now: nat, sendOk: bool, first: byte, h: L.Cids)
    requires Long(packet, first, h) && Learnable(env, t, id, h.scid) && Alive(t.connections[id], now, env.idleTimeout)
    ensures Owns(BackendStep(env, t, id, packet, now, sendOk).t.connections, id, h.scid)
  {
    hide L.Parse, QuicLb.Lookup, OwnerOf, Learn, Connection.Expired, Long, Alive;
    LongParses(packet, first, h);
    ExpiredInFields(t.connections[id], now, env.idleTimeout);
    var c := t.connections[id];
    var c1 := c.(lastSeen := now, initialKeyDcid := RetryKey(Some(h)).GetOr(c.initialKeyDcid));
    var t1 := t.(connections := t.connections[id := c1]);
    forall other ensures !Owns(t1.connections, other, h.scid) {
      assert !Owns(t.connections, other, h.scid);
    }
    LearnsIt(env, t1, id, h.scid);
  }

  /** So does a client's, once its datagram has been forwarded. */
  lemma ClientTeaches(env: Env, t: Table, peer: SocketAddr, packet: seq<byte>, io: Io, id: nat, first: byte, h: L.Cids)
    requires TableOk(env, t) && Long(packet, first, h) && LongNames(t, first, h, id) && Learnable(env, t, id, h.scid)
    requires SameEndpoint(peer, t.connections[id].clientAddr) && Alive(t.connections[id], io.t2, env.idleTimeout) && io.sends(0)
    ensures Owns(ClientStep(env, t, peer, packet, io).t.connections, id, h.scid)
  {
    hide TableOk, ClientFate, QuicLb.Lookup, OwnerOf, Learn, Connection.Expired, Normalize, SameEndpoint, Alive, Long;
    assert Names(t, packet, id, h.scid);
    NamedFate(env, t, peer, packet, io.t1, id, h.scid);
    ExpiredInFields(t.connections[id], io.t2, env.idleTimeout);
    var c := t.connections[id];
    var t1 := t.(connections := t.connections[id := c.(clientAddr := peer, lastSeen := io.t2)],
                 toBackend := t.toBackend + [Forwarded(id, c.backend, Normalize(peer), packet)]);
    forall other ensures !Owns(t1.connections, other, h.scid) {
      assert !Owns(t.connections, other, h.scid);
    }
    LearnsIt(env, t1, id, h.scid);
  }

  /** What was learned from a backend routes the client's next packets to it. */
  lemma LearnedIsRouted(env: Env, t: Table, id: nat, reply: seq<byte>, now: nat, sendOk: bool, first: byte, h: L.Cids,
                        peer: SocketAddr, packet: seq<byte>, later: nat, first2: byte, h2: L.Cids)
    requires TableOk(env, t) && Long(reply, first, h) && Learnable(env, t, id, h.scid)
    requires Alive(t.connections[id], now, env.idleTimeout)
    requires Long(packet, first2, h2) && h2.dcid == h.scid
    requires SameEndpoint(peer, t.connections[id].clientAddr)
    ensures ClientFate(env, BackendStep(env, t, id, reply, now, sendOk).t, peer, packet, later) == Along(id, h2.scid)
  {
    hide TableOk, ClientFate, BackendStep, QuicLb.Lookup, Long, Alive, SameEndpoint, Normalize, SendsOnPaths, SparesExpired;
    var t' := BackendStep(env, t, id, reply, now, sendOk).t;
    BackendTeaches(env, t, id, reply, now, sendOk, first, h);
    BackendStepKeeps(env, t, id, reply, now, sendOk);
    BackendKeepsConfig(env, t, id, reply, now, sendOk);
    BackendGood(env, t, id, reply, now, sendOk);
    NormalizeIdentifies(peer, t.connections[id].clientAddr);
    NormalizeIdentifies(peer, t'.connections[id].clientAddr);
    assert Names(t', packet, id, h2.scid) by {
      assert LongNames(t', first2, h2, id);
    }
    NamedFate(env, t', peer, packet, later, id, h2.scid);
  }

  lemma BackendKeepsConfig(env: Env, t: Table, id: nat, packet: seq<byte>, now: nat, sendOk: bool)
    ensures BackendStep(env, t, id, packet, now, sendOk).t.config == t.config
  {
    hide L.Parse, Connection.Expired, QuicLb.Lookup, OwnerOf;
  }

  // ----- the key of its Initials

  /** A Retry packet of version 1 (section 17.2.5 of RFC 9000). */
  ghost predicate IsRetry(first: byte, h: L.Cids) {
    first / 16 in {11, 15} && h.version == 1
  }

  /** The packet is a Retry with this source id. */
  ghost predicate Retries(packet: seq<byte>, scid: Cid) {
    scid != [] && exists first, h :: Long(packet, first, h) && IsRetry(first, h) && scid == h.scid
  }

  lemma RetryKeyExactly(packet: seq<byte>)
    requires L.Parse(packet).Success?
    ensures var key := RetryKey(L.Parse(packet).value);
            (key.Some? ==> Retries(packet, key.value)) && (forall scid :: Retries(packet, scid) ==> key == Some(scid))
  {
    hide L.Parse, Long, RetryKey, IsRetry;
    var long := L.Parse(packet).value;
    if long.Some? {
      RetryIsTyped(packet);
      LongExactly(packet);
    } else {
      assert RetryKey(None).None? by {
        NoRetry();
      }
    }
    forall scid | Retries(packet, scid) ensures RetryKey(long) == Some(scid) {
      var first, h :| Long(packet, first, h) && IsRetry(first, h) && scid == h.scid;
      LongParses(packet, first, h);
    }
  }

  lemma NoRetry()
    ensures RetryKey(None).None?
  {
  }

  /** A reply refreshes the connection, and only a Retry with a source id changes its key: to that id. */
  lemma ReplyRefreshes(env: Env, t: Table, id: nat, packet: seq<byte>, now: nat, sendOk: bool)
    requires id in t.connections && Alive(t.connections[id], now, env.idleTimeout) && L.Parse(packet).Success?
    ensures var t' := BackendStep(env, t, id, packet, now, sendOk).t;
            id in t'.connections && t'.connections[id].lastSeen == now &&
            (forall scid :: Retries(packet, scid) ==> t'.connections[id].initialKeyDcid == scid) &&
            ((forall scid :: !Retries(packet, scid)) ==>
               t'.connections[id].initialKeyDcid == t.connections[id].initialKeyDcid) &&
            (sendOk ==> t'.toClient == t.toClient + [Reply(id, t.connections[id].clientAddr, packet)])
  {
    hide L.Parse, QuicLb.Lookup, OwnerOf, Connection.Expired, Alive, Retries, RetryKey;
    ExpiredInFields(t.connections[id], now, env.idleTimeout);
    RetryKeyExactly(packet);
  }

  lemma RetryIsTyped(packet: seq<byte>)
    requires L.Parse(packet).Success? && L.Parse(packet).value.Some?
    ensures var h := L.Parse(packet).value.value;
            RetryKey(Some(h)) == if IsRetry(packet[0], h) && h.scid != [] then Some(h.scid) else None
  {
    hide L.Parse;
    L.TypesByFirstByte(packet);
  }

  lemma LongExactly(packet: seq<byte>)
    requires L.Parse(packet).Success? && L.Parse(packet).value.Some?
    ensures Long(packet, packet[0], L.Parse(packet).value.value)
  {
    hide L.Parse;
    L.Grammar(packet, L.Parse(packet).value.value);
  }

  // ----- a client with one live connection

  /** The client's only connection that is alive. */
  ghost predicate OnlyLive(env: Env, t: Table, peer: SocketAddr, now: nat, id: nat) {
    id in t.connections &&
    forall other <- t.connections ::
      SameEndpoint(t.connections[other].clientAddr, peer) && Alive(t.connections[other], now, env.idleTimeout) <==> other == id
  }

  lemma OnlyLiveIsPeer(env: Env, t: Table, peer: SocketAddr, now: nat, id: nat)
    ensures OnlyLive(env, t, peer, now, id) ==> PeerConnection(env, t.connections, peer, now) == Some(id)
    ensures PeerConnection(env, t.connections, peer, now) == Some(id) ==> OnlyLive(env, t, peer, now, id)
  {
    hide Connection.Expired, Alive, Normalize, SameEndpoint;
    forall other | other in t.connections
      ensures LivePeer(env, t.connections, Normalize(peer), now, other) <==>
              SameEndpoint(t.connections[other].clientAddr, peer) && Alive(t.connections[other], now, env.idleTimeout)
    {
      NormalizeIdentifies(t.connections[other].clientAddr, peer);
      ExpiredInFields(t.connections[other], now, env.idleTimeout);
    }
    if OnlyLive(env, t, peer, now, id) {
      assert LivePeer(env, t.connections, Normalize(peer), now, id);
      assert forall other :: LivePeer(env, t.connections, Normalize(peer), now, other) ==> other == id;
    }
    if PeerConnection(env, t.connections, peer, now) == Some(id) {
      assert LivePeer(env, t.connections, Normalize(peer), now, id);
    }
  }

  /** A short header that names no connection and no server. */
  ghost predicate NamesNone(t: Table, packet: seq<byte>) {
    Short(packet) && (forall m, other :: !OwnsNext(t, other, packet, m)) &&
    (|packet| >= 18 ==> QuicLb.Lookup(t.config.quicLb, packet[1..18]).None?)
  }

  lemma {:induction false} LongestIsNone(conns: Connections, bytes: seq<byte>, n: nat)
    requires n <= |bytes| && forall m, other | 1 <= m <= n :: !Owns(conns, other, bytes[..m])
    ensures LongestOwnerOf(conns, bytes, n) == None
  {
    hide OwnerOf;
    if n > 0 {
      OwnerIsHere(conns, bytes[..n]);
      LongestIsNone(conns, bytes, n - 1);
    }
  }

  /** It goes to its client's only live connection, and nowhere when there is none or more than one. */
  lemma UnnamedGoesToOnlyLive(env: Env, t: Table, peer: SocketAddr, packet: seq<byte>, now: nat)
    requires NamesNone(t, packet)
    ensures forall id: nat | OnlyLive(env, t, peer, now, id) :: ClientFate(env, t, peer, packet, now) == Along(id, [])
    ensures (forall id: nat :: !OnlyLive(env, t, peer, now, id)) ==>
              ClientFate(env, t, peer, packet, now) == Dropped(None, NoUniquePeer, 1)
  {
    hide L.Parse, QuicLb.Lookup, LongestOwnerOf, OnlyLive, PeerConnection, HandshakeFate, LbFate, P.Decrypt, Crypto, Normalize, Owns;
    PeerIsOnlyLive(env, t, peer, now);
    ShortParses(packet);
    var bytes := packet[1..];
    forall m, other | 1 <= m <= |bytes| ensures !Owns(t.connections, other, bytes[..m]) {
      assert bytes[..m] == packet[1..1 + m] && !OwnsNext(t, other, packet, m);
    }
    LongestIsNone(t.connections, bytes, |bytes|);
  }

  /** A long header whose destination id no connection holds and QUIC-LB does not decode. */
  ghost predicate LongNamesNone(t: Table, packet: seq<byte>, first: byte, h: L.Cids) {
    Long(packet, first, h) && (forall other :: !Owns(t.connections, other, h.dcid)) &&
    QuicLb.Lookup(t.config.quicLb, h.dcid).None?
  }

  lemma LongUnnamed(env: Env, t: Table, peer: SocketAddr, packet: seq<byte>, now: nat, first: byte, h: L.Cids)
    requires LongNamesNone(t, packet, first, h)
    ensures ClientFate(env, t, peer, packet, now) == UnroutedFate(env, t, peer, packet, Some(h), now)
    ensures h.packetType == L.TYPE_INITIAL <==> first / 16 in {8, 12}
    ensures h.packetType == L.TYPE_ZERO_RTT <==> first / 16 in {9, 13}
    ensures h.packetType == L.TYPE_HANDSHAKE <==> first / 16 in {10, 14}
  {
    hide L.Parse, QuicLb.Lookup, UnroutedFate, LbFate, Normalize, Long;
    LongParses(packet, first, h);
    L.TypesByFirstByte(packet);
    OwnerIsHere(t.connections, h.dcid);
  }

  /** 0-RTT and Handshake packets of version 1 go to the client's only live connection; other versions and types nowhere. */
  lemma UnnamedLongGoes(env: Env, t: Table, peer: SocketAddr, packet: seq<byte>, now: nat, first: byte, h: L.Cids)
    requires LongNamesNone(t, packet, first, h) && !(h.version == 1 && first / 16 in {8, 12})
    ensures var fate := ClientFate(env, t, peer, packet, now);
            if h.version == 1 && first / 16 in {9, 10, 13, 14} then
              (forall id: nat | OnlyLive(env, t, peer, now, id) :: fate == Along(id, h.scid)) &&
              ((forall id: nat :: !OnlyLive(env, t, peer, now, id)) ==> fate == Dropped(None, NoUniquePeer, 1))
            else fate == Dropped(None, UnsupportedPacket, 1)
  {
    hide ClientFate, OnlyLive, PeerConnection, HandshakeFate, P.Decrypt, Crypto, LongNamesNone;
    LongUnnamed(env, t, peer, packet, now, first, h);
    PeerIsOnlyLive(env, t, peer, now);
  }

  lemma PeerIsOnlyLive(env: Env, t: Table, peer: SocketAddr, now: nat)
    ensures forall id: nat :: OnlyLive(env, t, peer, now, id) <==> PeerConnection(env, t.connections, peer, now) == Some(id)
  {
    hide OnlyLive, PeerConnection;
    forall id: nat ensures OnlyLive(env, t, peer, now, id) <==> PeerConnection(env, t.connections, peer, now) == Some(id) {
      OnlyLiveIsPeer(env, t, peer, now, id);
    }
  }

  /** An Initial that its own destination id does not open goes to that connection only if the connection's key opens it. */
  lemma ForeignInitialGoes(env: Env, t: Table, peer: SocketAddr, packet: seq<byte>, now: nat, first: byte, h: L.Cids)
    requires LongNamesNone(t, packet, first, h) && h.version == 1 && first / 16 in {8, 12}
    requires P.Decrypt(env.primitives, packet, None).Failure?
    ensures var fate := ClientFate(env, t, peer, packet, now);
            (forall id: nat | OnlyLive(env, t, peer, now, id) ::
               fate == if id in t.connections && P.Decrypt(env.primitives, packet, Some(t.connections[id].initialKeyDcid)).Success?
                       then Along(id, h.scid) else Dropped(None, InvalidInitial, 1)) &&
            ((forall id: nat :: !OnlyLive(env, t, peer, now, id)) ==> fate == Dropped(None, NoUniquePeer, 1))
  {
    hide ClientFate, PeerConnection, HandshakeFate, P.Decrypt, Crypto, LongNamesNone, Alive, SameEndpoint;
    LongUnnamed(env, t, peer, packet, now, first, h);
    PeerIsOnlyLive(env, t, peer, now);
  }
}
