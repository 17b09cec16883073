/**
 Paths and handshakes in terms of the configuration and of their own fields: which backends have shared
 paths, how long a handshake may wait, and what a datagram for a QUIC-LB server opens.
 */
module RouterPaths {
  import opened Wrappers
  import opened Bytes
  import opened Addresses
  import opened Routing
  import opened Frames
  import opened Totals
  import opened RouterTable
  import opened RouterInvariant
  import opened RouterFate
  import opened RouterHandshake
  import opened RouterConnections
  import QuicLb
  import L = LongHeader
  import P = InitialProtection
  import R = CryptoReassembly
  import Hello = ClientHello

  // ----- shared paths

  /** Some QUIC-LB configuration maps a server id to the backend. */
  ghost predicate Served(config: LoadedConfig, addr: SocketAddr) {
    exists c, id :: c in config.quicLb && id in c.servers && c.servers[id] == Normalize(addr)
  }

  lemma ServedIsServer(config: LoadedConfig, addr: SocketAddr)
    ensures Served(config, addr) <==> QuicLb.IsServer(config.quicLb, Normalize(addr))
  {
    hide Normalize;
    var configs := config.quicLb;
    if c, id :| c in configs && id in c.servers && c.servers[id] == Normalize(addr) {
      var i :| 0 <= i < |configs| && configs[i] == c;
      assert Normalize(addr) in configs[i].servers.Values;
    }
    if QuicLb.IsServer(configs, Normalize(addr)) {
      var i :| 0 <= i < |configs| && Normalize(addr) in configs[i].servers.Values;
      var id :| id in configs[i].servers && configs[i].servers[id] == Normalize(addr);
      assert configs[i] in configs;
    }
  }

  /**
   A handshake routed to a backend of no QUIC-LB configuration never touches an existing connection nor
   makes a shared one: at most it gets a connection of its own, to the address as it was configured.
   */
  lemma PlainBackendIsOwn(env: Env, t: Table, p: Pending, addr: SocketAddr, timeout: Option<nat>, io: Io)
    requires !Served(t.config, addr) && t.nextId !in t.connections
    ensures var t' := Establish(env, t, p, Route(Udp(addr), timeout), io).t;
            t'.shared == t.shared && (forall id <- t.connections :: id in t'.connections && t'.connections[id] == t.connections[id]) &&
            (forall id <- t'.connections :: id in t.connections || (id == t.nextId && t'.connections[id].backend == addr))
  {
    hide Refusal, Served, QuicLb.IsServer, SharedPath, Normalize, Pending.Requested, Log;
    ServedIsServer(t.config, addr);
  }

  /** The shared path of a client's endpoint and a server. */
  ghost predicate IsShared(t: Table, client: SocketAddr, server: SocketAddr, id: nat) {
    id in t.shared && id in t.connections && SameEndpoint(t.connections[id].clientAddr, client) &&
    t.connections[id].backend == server
  }

  /**
   A handshake routed to a QUIC-LB server joins the shared path of its client's endpoint and that server if there
   is one. Otherwise the connection it gets goes to the server's normalized address and is shared.
   */
  lemma ServerPathIsShared(env: Env, t: Table, p: Pending, addr: SocketAddr, timeout: Option<nat>, io: Io)
    requires TableOk(env, t) && Served(t.config, addr)
    ensures var route := Route(Udp(addr), timeout);
            (forall id: nat :: IsShared(t, p.clientAddr, Normalize(addr), id) <==> Joined(t, p, route) == Some(id)) &&
            (Joined(t, p, route).None? && Accepted(env, t, p, route, io) && io.connects ==>
               var t' := Establish(env, t, p, route, io).t;
               IsShared(t', p.clientAddr, Normalize(addr), t.nextId) && t'.shared == t.shared + {t.nextId})
  {
    hide ConnectionsOk, PendingsOk, Refusal, Served, QuicLb.IsServer, Normalize, SameEndpoint, Pending.Requested, Log,
      Connection.Expired;
    ServedIsServer(t.config, addr);
    var server := Normalize(addr);
    forall id: nat ensures IsShared(t, p.clientAddr, server, id) <==> IsPath(t.connections, t.shared, (Normalize(p.clientAddr), server), id) {
      if id in t.connections {
        NormalizeIdentifies(t.connections[id].clientAddr, p.clientAddr);
      }
    }
    NormalizeIdentifies(p.clientAddr, p.clientAddr);
  }

  // ----- datagrams that name a server

  /** The 17 bytes in which a packet names a server: its destination id, or what follows a short header. */
  ghost predicate NamesServer(packet: seq<byte>, cid: Cid) {
    (exists first, h :: Long(packet, first, h) && h.dcid == cid) || (Short(packet) && |packet| >= 18 && packet[1..18] == cid)
  }

  lemma ServerIsNamed(packet: seq<byte>, cid: Cid)
    requires NamesServer(packet, cid)
    ensures packet != [] && L.Parse(packet).Success? && LbCid(packet, L.Parse(packet).value) == Some(cid)
  {
    hide L.Parse, Long;
    if first, h :| Long(packet, first, h) && h.dcid == cid {
      LongParses(packet, first, h);
    } else {
      ShortParses(packet);
    }
  }

  /** A client that answers with an id its server encoded reaches that server or none, whatever the router has seen. */
  lemma EncodedGoesToItsServer(env: Env, t: Table, peer: SocketAddr, packet: seq<byte>, io: Io,
                               c: QuicLb.LbConfig, plaintext: QuicLb.Block, low: byte)
    requires c in t.config.quicLb && c.codec.cipher.Lawful() && low < 32 && c.codec.configId < 7
    requires U32(plaintext[0], plaintext[1], plaintext[2], plaintext[3]) in c.servers
    requires NamesServer(packet, c.codec.Encrypt(plaintext)[0 := c.codec.configId * 32 + low])
    ensures OnlyTo(t, ClientStep(env, t, peer, packet, io).t, Normalize(peer),
                   c.servers[U32(plaintext[0], plaintext[1], plaintext[2], plaintext[3])])
  {
    hide ClientStep, LbCid, L.Parse, QuicLb.Lookup, QuicLb.Valid, QuicLb.Codec.Encrypt, QuicLb.Cipher.Lawful, U32, OnlyTo, NamesServer;
    ServerIsNamed(packet, c.codec.Encrypt(plaintext)[0 := c.codec.configId * 32 + low]);
    QuicLb.EncodedIsFound(t.config.quicLb, c, plaintext, low);
    DecodedGoesToItsBackend(env, t, peer, packet, io, c.servers[U32(plaintext[0], plaintext[1], plaintext[2], plaintext[3])]);
  }

  /**
   A datagram that names a server goes along the client's shared path to it while that is alive, and is
   dropped when it is not. Without one it is at once a handshake of its own, for the configured lifetime.
   */
  lemma ServerDatagram(env: Env, t: Table, peer: SocketAddr, packet: seq<byte>, now: nat, cid: Cid, server: SocketAddr)
    requires TableOk(env, t) && NamesServer(packet, cid) && QuicLb.Lookup(t.config.quicLb, cid) == Some(server)
    requires |packet| <= 131072
    ensures var fate := ClientFate(env, t, peer, packet, now);
            (forall id: nat | IsShared(t, peer, server, id) ::
               fate == if Alive(t.connections[id], now, env.idleTimeout) then Along(id, []) else Dropped(None, Expired, 1)) &&
            ((forall id: nat :: !IsShared(t, peer, server, id)) ==>
               fate.Arrives? && fate.route == Success(Route(Udp(server), t.config.maxLifetime)) && fate.p.datagrams == [packet] &&
               SameEndpoint(fate.p.clientAddr, peer) && fate.p.created == now && fate.p.lastSeen == now &&
               forall c :: !Asked(fate.p, c))
  {
    hide ConnectionsOk, PendingsOk, L.Parse, OwnerOf, LongestOwnerOf, UnroutedFate, Connection.Expired, Alive, Normalize, SameEndpoint, QuicLb.Lookup,
      LbCid, NamesServer;
    ServerIsNamed(packet, cid);
    var path := SharedPath(t.connections, t.shared, (Normalize(peer), server));
    forall id: nat ensures IsShared(t, peer, server, id) <==> path == Some(id) {
      if id in t.connections {
        NormalizeIdentifies(t.connections[id].clientAddr, peer);
      }
      if IsPath(t.connections, t.shared, (Normalize(peer), server), id) {
        assert path.Some? && IsPath(t.connections, t.shared, (Normalize(peer), server), path.value);
      }
    }
    if path.Some? {
      ExpiredInFields(t.connections[path.value], now, env.idleTimeout);
    }
    NormalizeIdentifies(peer, peer);
  }

  // ----- handshakes

  /** The handshake began and was last added to within the idle timeout, and the configured one if there is one. */
  ghost predicate Fresh(env: Env, config: LoadedConfig, p: Pending, now: nat) {
    Within(p, now, env.idleTimeout) && (config.handshakeTimeout.Some? ==> Within(p, now, config.handshakeTimeout.value))
  }

  ghost predicate Within(p: Pending, now: nat, timeout: nat) {
    timeout > 0 && now < p.created + timeout && now < p.lastSeen + timeout
  }

  /** A cleanup keeps exactly the handshakes that are fresh, as they are. */
  lemma CleanupKeepsFresh(env: Env, t: Table, now: nat, key: PendingKey)
    ensures var t' := CleanupStep(env, t, now);
            (key in t'.pending <==> key in t.pending && Fresh(env, t.config, t.pending[key], now)) &&
            (key in t'.pending ==> t'.pending[key] == t.pending[key])
  {
    hide Connection.Expired, Total;
  }

  /** A handshake begins with its first datagram, and each datagram it takes renews it. */
  lemma HandshakeTimes(env: Env, t: Table, peer: SocketAddr, packet: seq<byte>, d: P.Decrypted, chunks: seq<Chunk>, now: nat)
    ensures var fate := HandshakeFate(env, t, peer, packet, d, chunks, now);
            fate.Waits? ==>
              fate.p.lastSeen == now && fate.p.created == (if fate.key in t.pending then t.pending[fate.key].created else now)
  {
    hide RouteForSni, Normalize, PendingBytes, R.InsertAll, R.ClientHello;
  }

  /** The bounds on a handshake, in any reachable state. */
  lemma HandshakeBounds(env: Env, t: Table, key: PendingKey)
    requires TableOk(env, t) && key in t.pending
    ensures var p := t.pending[key];
            |p.datagrams| <= 32 && Lengths(p.datagrams) <= 131072 &&
            |p.crypto.fragments| <= 128
  {
    hide ConnectionsOk, SharedOk, Replays, Lengths, Total;
    assert PendingOk(env, key, t.pending[key]);
  }

  /** A handshake whose ClientHello is complete but cannot be parsed is routed like one without a name. */
  lemma GarbledNameRoutesByDefault(env: Env, t: Table, peer: SocketAddr, packet: seq<byte>, d: P.Decrypted, chunks: seq<Chunk>, now: nat)
    ensures var fate := HandshakeFate(env, t, peer, packet, d, chunks, now);
            fate.Arrives? ==>
              exists msg :: R.IsHello(msg) && msg <= fate.p.crypto.bytes &&
                (Hello.Sni(msg).Failure? || Hello.Sni(msg).value.None? ==> Says(t.config, t.config.defaultRule, peer, fate.route)) &&
                (Hello.Sni(msg).Success? && Hello.Sni(msg).value.Some? ==>
                   fate.route == RouteForSni(t.config, peer, Hello.Sni(msg).value))
  {
    hide RouteForSni, Normalize, PendingBytes, R.InsertAll, R.ClientHello, Hello.Sni, Says, PendingAt, R.IsHello;
    var r := Absorb(PendingAt(t, peer, d.dcid, now), packet, d.scid, chunks, now);
    if r.Complete? {
      var msg := R.ClientHello(r.p.crypto.bytes).value.value;
      R.HelloExactly(r.p.crypto.bytes, msg);
      FirstRuleDecides(t.config, peer, None);
    }
  }
}
