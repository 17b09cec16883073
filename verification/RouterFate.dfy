/** Whose connection, and whose handshake, the fate of a client datagram touches. */
module RouterFate {
  import opened Wrappers
  import opened Bytes
  import opened Addresses
  import opened Routing
  import opened Frames
  import opened RouterTable
  import opened RouterInvariant
  import L = LongHeader
  import P = InitialProtection

  ghost function HeldAt(t: Table, key: PendingKey): seq<seq<byte>> {
    if key in t.pending then t.pending[key].datagrams else []
  }

  ghost function Spent(t: Table, spent: Option<PendingKey>): seq<seq<byte>> {
    if spent.Some? then HeldAt(t, spent.value) else []
  }

  /** A fate touches only its client's connection or handshake, and buffers or flushes the datagram last. */
  ghost predicate ConcernsPeer(t: Table, client: SocketAddr, packet: seq<byte>, fate: Fate) {
    match fate
    case Dropped(spent, _, count) => (spent.Some? ==> spent.value.0 == client) && count == |Spent(t, spent)| + 1
    case Along(id, _) => id in t.connections && t.connections[id].Client() == client
    case Waits(key, p) => key.0 == client && p.datagrams == HeldAt(t, key) + [packet]
    case Arrives(spent, p, _) =>
      (spent.Some? ==> spent.value.0 == client) && Normalize(p.clientAddr) == client &&
      p.datagrams == Spent(t, spent) + [packet]
    case Oversized => true
  }

  lemma AbsorbAppends(p: Pending, packet: seq<byte>, scid: Cid, chunks: seq<Chunk>, now: nat)
    ensures var r := Absorb(p, packet, scid, chunks, now);
            !r.Rejected? ==> r.p.datagrams == p.datagrams + [packet] && r.p.clientAddr == p.clientAddr
  {
  }

  lemma HandshakeConcerns(env: Env, t: Table, peer: SocketAddr, packet: seq<byte>, d: P.Decrypted, chunks: seq<Chunk>, now: nat)
    requires TableOk(env, t)
    ensures ConcernsPeer(t, Normalize(peer), packet, HandshakeFate(env, t, peer, packet, d, chunks, now))
  {
    hide TableOk, Absorb, RouteForSni, Normalize, PendingBytes;
    var p := PendingAt(t, peer, d.dcid, now);
    PendingClient(env, t, peer, d.dcid, now);
    AbsorbAppends(p, packet, d.scid, chunks, now);
  }

  lemma PendingClient(env: Env, t: Table, peer: SocketAddr, dcid: Cid, now: nat)
    requires TableOk(env, t)
    ensures Normalize(PendingAt(t, peer, dcid, now).clientAddr) == Normalize(peer)
  {
    PendingAtOk(env, t, peer, dcid, now);
  }

  lemma UnroutedConcerns(env: Env, t: Table, peer: SocketAddr, packet: seq<byte>, long: Option<L.Cids>, now: nat)
    requires TableOk(env, t)
    ensures ConcernsPeer(t, Normalize(peer), packet, UnroutedFate(env, t, peer, packet, long, now))
  {
    hide TableOk, HandshakeFate, P.Decrypt, Crypto, Normalize, Connection.Expired;
    var d := P.Decrypt(env.primitives, packet, None);
    if d.Success? && Crypto(d.value.payload).Success? {
      HandshakeConcerns(env, t, peer, packet, d.value, Crypto(d.value.payload).value, now);
    }
  }

  lemma LbConcerns(env: Env, t: Table, peer: SocketAddr, packet: seq<byte>, addr: SocketAddr, now: nat)
    ensures ConcernsPeer(t, Normalize(peer), packet, LbFate(env, t, peer, packet, addr, now))
  {
    hide Normalize, Connection.Expired;
  }

  lemma FateConcernsPeer(env: Env, t: Table, peer: SocketAddr, packet: seq<byte>, now: nat)
    requires TableOk(env, t)
    ensures ConcernsPeer(t, Normalize(peer), packet, ClientFate(env, t, peer, packet, now))
  {
    hide TableOk, UnroutedFate, LbFate, PacketConnection, LbBackend, Normalize;
    if packet != [] && PacketConnection(t.connections, packet).Success? {
      var (long, connId) := PacketConnection(t.connections, packet).value;
      var addr := LbBackend(t.config, packet, long);
      UnroutedConcerns(env, t, peer, packet, long, now);
      if addr.Some? {
        LbConcerns(env, t, peer, packet, addr.value, now);
      }
    }
  }
}
