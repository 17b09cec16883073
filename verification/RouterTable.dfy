/**
 The HTTP/3 router without its indexes: one table of connections and one of pending handshakes,
 searched by scanning. Each step of the router is a function of the table, the event and the
 outcomes of the socket calls. The class in Router.dfy is proved to compute these functions.
 */
module RouterTable {
  import opened Wrappers
  import opened Bytes
  import opened Addresses
  import opened Routing
  import opened Totals
  import opened Frames
  import QuicLb
  import L = LongHeader
  import P = InitialProtection
  import R = CryptoReassembly
  import Hello = ClientHello

  type Cid = seq<byte>

  const MAX_PENDING_DATAGRAMS: nat := 32
  const MAX_PENDING_BYTES: nat := 128 * 1024

  /** Flags of the command line; each is positive there. */
  datatype Limits = Limits(maxPaths: nat, maxPendingHandshakes: nat, maxPendingBytes: nat, maxCidsPerPath: nat)

  /** What stays fixed while the router runs. */
  datatype Env = Env(limits: Limits, idleTimeout: nat, primitives: P.Primitives)

  /** `backend` is the address its upstream socket is connected to. */
  datatype Connection = Connection(
    backend: SocketAddr, clientAddr: SocketAddr, initialKeyDcid: Cid, cids: set<Cid>,
    created: nat, lastSeen: nat, deadline: Option<nat>
  ) {
    /** The normalized client address. */
    function Client(): SocketAddr {
      Normalize(clientAddr)
    }

    function PathKey(): (SocketAddr, SocketAddr) {
      (Client(), backend)
    }

    predicate Expired(now: nat, idleTimeout: nat) {
      (if now >= lastSeen then now - lastSeen else 0) >= idleTimeout ||
      (deadline.Some? && now >= deadline.value)
    }
  }

  datatype Pending = Pending(
    clientAddr: SocketAddr, initialDcid: Cid, clientCids: set<Cid>, datagrams: seq<seq<byte>>,
    bufferedBytes: nat, crypto: R.State, created: nat, lastSeen: nat
  ) {
    /** Ids the handshake wants routed: its non-empty ones. */
    function Requested(): set<Cid> {
      (clientCids + {initialDcid}) - {[]}
    }
  }

  function NewPending(clientAddr: SocketAddr, initialDcid: Cid, now: nat): Pending {
    Pending(clientAddr, initialDcid, {}, [], 0, R.EMPTY, now, now)
  }

  type PendingKey = (SocketAddr, Cid)

  datatype Reason =
    | Malformed | Expired | UnexpectedPeer | NoUniquePeer | InvalidInitial | StaleBackend | MalformedBackend
    | UnsupportedPacket | InvalidFrames | PendingHandshakeLimit | PendingBytesLimit | CryptoFragmentLimit
    | NullBackend | CidCollision | CidLimit | PathLimit | PendingTimeout

  /** A datagram handed to a connection's upstream socket, or to the client socket. */
  datatype Forwarded = Forwarded(id: nat, backend: SocketAddr, client: SocketAddr, datagram: seq<byte>)
  datatype Reply = Reply(id: nat, addr: SocketAddr, datagram: seq<byte>)

  datatype Table = Table(
    config: LoadedConfig,
    nextId: nat,
    connections: map<nat, Connection>,
    shared: set<nat>,                     // the connections made as QUIC-LB paths
    pending: map<PendingKey, Pending>,
    toBackend: seq<Forwarded>,
    toClient: seq<Reply>,
    dropped: multiset<Reason>,            // datagrams dropped, counted by reason
    cidLimited: nat                       // ids refused by a path's budget
  ) {
    function Drop(reason: Reason, count: nat): Table {
      this.(dropped := dropped[reason := dropped[reason] + count])
    }
  }

  datatype Out = Out(t: Table, ok: bool)

  // ----- lookups, by scanning

  type Connections = map<nat, Connection>

  ghost predicate Owns(conns: Connections, id: nat, cid: Cid) {
    id in conns && cid in conns[id].cids
  }

  ghost function OwnerOf(conns: Connections, cid: Cid): (r: Option<nat>)
    ensures r.Some? ==> Owns(conns, r.value, cid)
    ensures r.None? ==> forall id :: !Owns(conns, id, cid)
  {
    if exists id :: Owns(conns, id, cid) then
      var id :| Owns(conns, id, cid);
      Some(id)
    else None
  }

  lemma OwnerIsHere(conns: Connections, cid: Cid)
    ensures OwnerOf(conns, cid).Some? ==> Owns(conns, OwnerOf(conns, cid).value, cid)
  {
  }

  /** Owner of the longest registered id, up to n bytes, that the bytes start with. */
  ghost function LongestOwnerOf(conns: Connections, bytes: seq<byte>, n: nat): (r: Option<nat>)
    requires n <= |bytes|
    ensures r.Some? ==> r.value in conns
  {
    if n == 0 then None
    else
      match OwnerOf(conns, bytes[..n])
      case Some(id) => Some(id)
      case None => LongestOwnerOf(conns, bytes, n - 1)
  }

  /** The connection a packet's destination id names, with the ids of a long header. */
  ghost function PacketConnection(conns: Connections, packet: seq<byte>): (r: Result<(Option<L.Cids>, Option<nat>), L.Error>)
    ensures r.Success? && r.value.1.Some? ==> r.value.1.value in conns
  {
    match L.Parse(packet)
    case Failure(e) => Failure(e)
    case Success(Some(long)) => Success((Some(long), OwnerOf(conns, long.dcid)))
    case Success(None) =>
      Success((None, if packet == [] then None else LongestOwnerOf(conns, packet[1..], |packet| - 1)))
  }

  ghost predicate IsPath(conns: Connections, shared: set<nat>, key: (SocketAddr, SocketAddr), id: nat) {
    id in shared && id in conns && conns[id].PathKey() == key
  }

  ghost function SharedPath(conns: Connections, shared: set<nat>, key: (SocketAddr, SocketAddr)): (r: Option<nat>)
    ensures r.Some? ==> IsPath(conns, shared, key, r.value)
    ensures r.None? ==> forall id :: !IsPath(conns, shared, key, id)
  {
    if exists id :: IsPath(conns, shared, key, id) then
      var id :| IsPath(conns, shared, key, id);
      Some(id)
    else None
  }

  ghost predicate LivePeer(env: Env, conns: Connections, client: SocketAddr, now: nat, id: nat) {
    id in conns && conns[id].Client() == client && !conns[id].Expired(now, env.idleTimeout)
  }

  /** The only live connection of a client address, if there is exactly one. */
  ghost function PeerConnection(env: Env, conns: Connections, peer: SocketAddr, now: nat): (r: Option<nat>)
    ensures r.Some? ==> LivePeer(env, conns, Normalize(peer), now, r.value)
    ensures r.Some? ==> forall id :: LivePeer(env, conns, Normalize(peer), now, id) ==> id == r.value
  {
    if id: nat :| LivePeer(env, conns, Normalize(peer), now, id) &&
                  forall other :: LivePeer(env, conns, Normalize(peer), now, other) ==> other == id
    then Some(id)
    else None
  }

  // ----- forwarding on an established connection

  /** Learns an id seen on a connection: not an empty or decodable one, within budget, first owner first. */
  ghost function Learn(env: Env, t: Table, id: nat, cid: Cid): Table {
    if cid == [] || QuicLb.Lookup(t.config.quicLb, cid).Some? then t
    else if id !in t.connections || cid in t.connections[id].cids then t
    else if |t.connections[id].cids| >= env.limits.maxCidsPerPath then t.(cidLimited := t.cidLimited + 1)
    else if OwnerOf(t.connections, cid).Some? then t
    else t.(connections := t.connections[id := WithCids(t.connections[id], {cid})])
  }

  function WithCids(c: Connection, cids: set<Cid>): Connection {
    c.(cids := c.cids + cids)
  }

  /** Source id of a long header; an empty one stands for none. */
  function SourceId(long: Option<L.Cids>): Cid {
    if long.Some? then long.value.scid else []
  }

  ghost function ForwardClient(env: Env, t: Table, id: nat, peer: SocketAddr, packet: seq<byte>, scid: Cid,
                               now: nat, sendOk: bool): Out
  {
    if id !in t.connections then Out(t, true)
    else
      var c := t.connections[id];
      if c.Expired(now, env.idleTimeout) then Out(t.Drop(Expired, 1), true)
      else
        var c1 := c.(clientAddr := peer, lastSeen := now);
        var t1 := t.(connections := t.connections[id := c1]);
        if !sendOk then Out(t1, false)
        else
          Out(Learn(env, t1.(toBackend := t1.toBackend + [Forwarded(id, c.backend, Normalize(peer), packet)]), id, scid),
              true)
  }

  // ----- a handshake: buffering it, then registering and flushing it

  /** What the sockets and the clock answer during one client step: two clock readings in order. */
  datatype Io = Io(t1: nat, t2: nat, connects: bool, sends: nat -> bool)

  /** How many of n sends succeed before one fails. */
  function SentCount(sends: nat -> bool, n: nat): (k: nat)
    ensures k <= n
    ensures forall i | 0 <= i < k :: sends(i)
    ensures k < n ==> !sends(k)
  {
    if n == 0 then 0
    else
      var k := SentCount(sends, n - 1);
      if k == n - 1 && sends(k) then n else k
  }

  function Log(id: nat, c: Connection, datagrams: seq<seq<byte>>): (r: seq<Forwarded>)
    ensures |r| == |datagrams|
    ensures forall i | 0 <= i < |r| :: r[i] == Forwarded(id, c.backend, c.Client(), datagrams[i])
  {
    seq(|datagrams|, i requires 0 <= i < |datagrams| => Forwarded(id, c.backend, c.Client(), datagrams[i]))
  }

  function AddTimeout(now: nat, timeout: Option<nat>): Option<nat> {
    if timeout.Some? then Some(now + timeout.value) else None
  }

  /** The shared path a handshake may join: none unless its backend is a QUIC-LB server. */
  ghost function Existing(t: Table, client: SocketAddr, addr: SocketAddr): (r: Option<nat>)
    ensures r.Some? ==> IsPath(t.connections, t.shared, (client, Normalize(addr)), r.value)
  {
    if QuicLb.IsServer(t.config.quicLb, Normalize(addr))
    then SharedPath(t.connections, t.shared, (client, Normalize(addr)))
    else None
  }

  /** Why a registration is refused as a whole, if it is. */
  ghost function Refusal(env: Env, t: Table, p: Pending, existing: Option<nat>): Option<Reason>
    requires existing.Some? ==> existing.value in t.connections
  {
    var id := existing.GetOr(t.nextId);
    var retained := if existing.Some? then t.connections[existing.value].cids else {};
    if exists cid :: cid in p.clientCids + {p.initialDcid} &&
                     OwnerOf(t.connections, cid).Some? && OwnerOf(t.connections, cid).value != id then Some(CidCollision)
    else if |retained| + |p.Requested() - retained| > env.limits.maxCidsPerPath then Some(CidLimit)
    else if existing.None? && |t.connections| >= env.limits.maxPaths then Some(PathLimit)
    else None
  }

  /** Ids of a handshake that a shared path registers: those that QUIC-LB does not decode. */
  ghost function Registrable(t: Table, p: Pending): set<Cid> {
    set cid | cid in p.Requested() && QuicLb.Lookup(t.config.quicLb, cid).None?
  }

  ghost function Join(env: Env, t: Table, id: nat, p: Pending, route: Route, io: Io): Out
    requires id in t.connections
  {
    var c := t.connections[id];
    if c.Expired(io.t2, env.idleTimeout) then Out(t.Drop(Expired, |p.datagrams|), true)
    else
      var c1 := c.(deadline := MinTimeout(c.deadline, AddTimeout(io.t2, route.timeout)));
      var n := SentCount(io.sends, |p.datagrams|);
      var t1 := t.(toBackend := t.toBackend + Log(id, c, p.datagrams[..n]));
      if n < |p.datagrams| then Out(t1.(connections := t.connections[id := c1]), false)
      else
        var c2 := WithCids(c1.(lastSeen := io.t2), Registrable(t, p));
        Out(t1.(connections := t.connections[id := c2]), true)
  }

  ghost function Create(env: Env, t: Table, p: Pending, addr: SocketAddr, route: Route, io: Io): Out {
    var isShared := QuicLb.IsServer(t.config.quicLb, Normalize(addr));
    var backend := if isShared then Normalize(addr) else addr;
    var id := t.nextId;
    var t1 := t.(nextId := t.nextId + 1);
    if !io.connects then Out(t1, false)
    else
      var c := Connection(backend, p.clientAddr, p.initialDcid, p.Requested(), io.t2, io.t2,
                          AddTimeout(io.t2, route.timeout));
      var n := SentCount(io.sends, |p.datagrams|);
      Out(t1.(connections := t.connections[id := c], shared := if isShared then t.shared + {id} else t.shared,
              toBackend := t.toBackend + Log(id, c, p.datagrams[..n])),
          n == |p.datagrams|)
  }

  ghost function Establish(env: Env, t: Table, p: Pending, route: Route, io: Io): Out {
    match route.backend
    case Null => Out(t.Drop(NullBackend, |p.datagrams|), true)
    case Udp(addr) =>
      var existing := Existing(t, Normalize(p.clientAddr), addr);
      match Refusal(env, t, p, existing)
      case Some(reason) =>
        var t1 := if reason == CidLimit then t.(cidLimited := t.cidLimited + 1) else t;
        Out(t1.Drop(reason, |p.datagrams|), true)
      case None =>
        match existing
        case Some(id) => Join(env, t, id, p, route, io)
        case None => Create(env, t, p, addr, route, io)
  }

  /** Buffers a datagram, or None when the handshake holds too many or too much. */
  function Push(p: Pending, packet: seq<byte>): Option<Pending> {
    if |p.datagrams| >= MAX_PENDING_DATAGRAMS || p.bufferedBytes + |packet| > MAX_PENDING_BYTES then None
    else Some(p.(datagrams := p.datagrams + [packet], bufferedBytes := p.bufferedBytes + |packet|))
  }

  datatype Progress = Waiting(p: Pending) | Complete(p: Pending, sni: Option<seq<byte>>) | Rejected(reason: Reason)

  /** A ClientHello whose names cannot be parsed routes like one without a name. */
  function NameOf(hello: seq<byte>): Option<seq<byte>> {
    match Hello.Sni(hello)
    case Success(name) => name
    case Failure(_) => None
  }

  /** Adds one decrypted datagram to a handshake. */
  function Absorb(p: Pending, packet: seq<byte>, scid: Cid, chunks: seq<Chunk>, now: nat): Progress {
    match Push(p, packet)
    case None => Rejected(PendingHandshakeLimit)
    case Some(p1) =>
      match R.InsertAll(p.crypto, chunks)
      case Failure(_) => Rejected(CryptoFragmentLimit)
      case Success(crypto) =>
        var p2 := p1.(crypto := crypto, lastSeen := now,
                      clientCids := if scid == [] then p.clientCids else p.clientCids + {scid});
        match R.ClientHello(crypto.bytes)
        case Failure(_) => Rejected(InvalidInitial)
        case Success(None) => Waiting(p2)
        case Success(Some(hello)) => Complete(p2, NameOf(hello))
  }

  ghost function Sizes(pending: map<PendingKey, Pending>): map<PendingKey, nat> {
    map k | k in pending :: pending[k].bufferedBytes
  }

  ghost function Counts(pending: map<PendingKey, Pending>): map<PendingKey, nat> {
    map k | k in pending :: |pending[k].datagrams|
  }

  /** Bytes and datagrams buffered over all pending handshakes. */
  ghost function PendingBytes(t: Table): nat {
    Total(Sizes(t.pending))
  }

  ghost function Buffered(t: Table): nat {
    Total(Counts(t.pending))
  }

  ghost function WithoutPending(t: Table, key: PendingKey): Table {
    t.(pending := t.pending - {key})
  }

  /** The bytes that may be a QUIC-LB id: a long header's destination id, or 17 bytes after a short header. */
  function LbCid(packet: seq<byte>, long: Option<L.Cids>): Option<Cid> {
    match long
    case Some(l) => Some(l.dcid)
    case None => if |packet| >= 1 + QuicLb.CID_LEN then Some(packet[1..1 + QuicLb.CID_LEN]) else None
  }

  function LbBackend(config: LoadedConfig, packet: seq<byte>, long: Option<L.Cids>): Option<SocketAddr> {
    var cid := LbCid(packet, long);
    if cid.Some? then QuicLb.Lookup(config.quicLb, cid.value) else None
  }

  // ----- what becomes of a client datagram, decided before any socket is used

  /** The handshake a datagram adds to, there already or new. */
  function PendingAt(t: Table, peer: SocketAddr, dcid: Cid, now: nat): Pending {
    if (Normalize(peer), dcid) in t.pending then t.pending[(Normalize(peer), dcid)] else NewPending(peer, dcid, now)
  }

  /** `spent` is the pending handshake that is over, if one is. */
  datatype Fate =
    | Dropped(spent: Option<PendingKey>, reason: Reason, count: nat)
    | Along(id: nat, scid: Cid)
    | Waits(key: PendingKey, p: Pending)
    | Arrives(spent: Option<PendingKey>, p: Pending, route: Result<Route, RouteError>)
    | Oversized

  ghost function AffinityFate(env: Env, t: Table, peer: SocketAddr, packet: seq<byte>, long: Option<L.Cids>,
                              validateInitial: bool, now: nat): Fate
  {
    match PeerConnection(env, t.connections, peer, now)
    case None => Dropped(None, NoUniquePeer, 1)
    case Some(id) =>
      if validateInitial && P.Decrypt(env.primitives, packet, Some(t.connections[id].initialKeyDcid)).Failure?
      then Dropped(None, InvalidInitial, 1)
      else Along(id, SourceId(long))
  }

  ghost function HandshakeFate(env: Env, t: Table, peer: SocketAddr, packet: seq<byte>, d: P.Decrypted,
                               chunks: seq<Chunk>, now: nat): Fate
  {
    var key := (Normalize(peer), d.dcid);
    var p := PendingAt(t, peer, d.dcid, now);
    if key !in t.pending && |t.pending| >= env.limits.maxPendingHandshakes then Dropped(None, PendingHandshakeLimit, 1)
    else if PendingBytes(t) + |packet| > env.limits.maxPendingBytes then Dropped(None, PendingBytesLimit, 1)
    else ProgressFate(t.config, peer, key, |p.datagrams|, Absorb(p, packet, d.scid, chunks, now))
  }

  /** What the progress of a handshake that held so many datagrams makes of it. */
  function ProgressFate(config: LoadedConfig, peer: SocketAddr, key: PendingKey, held: nat, progress: Progress): Fate {
    match progress
    case Rejected(reason) => Dropped(Some(key), reason, held + 1)
    case Waiting(p) => Waits(key, p)
    case Complete(p, sni) => Arrives(Some(key), p, RouteForSni(config, peer, sni))
  }

  ghost function UnroutedFate(env: Env, t: Table, peer: SocketAddr, packet: seq<byte>, long: Option<L.Cids>, now: nat): Fate {
    if long.None? || (long.value.version == L.VERSION_1 && long.value.packetType in {L.TYPE_HANDSHAKE, L.TYPE_ZERO_RTT})
    then AffinityFate(env, t, peer, packet, long, false, now)
    else if long.value.version != L.VERSION_1 || long.value.packetType != L.TYPE_INITIAL
    then Dropped(None, UnsupportedPacket, 1)
    else
      match P.Decrypt(env.primitives, packet, None)
      case Failure(_) => AffinityFate(env, t, peer, packet, long, true, now)
      case Success(d) =>
        match Crypto(d.payload)
        case Failure(_) => Dropped(None, InvalidFrames, 1)
        case Success(chunks) => HandshakeFate(env, t, peer, packet, d, chunks, now)
  }

  /** A datagram whose id decodes to a backend: no other lookup is consulted. */
  ghost function LbFate(env: Env, t: Table, peer: SocketAddr, packet: seq<byte>, addr: SocketAddr, now: nat): Fate {
    match SharedPath(t.connections, t.shared, (Normalize(peer), addr))
    case Some(id) =>
      if t.connections[id].Expired(now, env.idleTimeout) then Dropped(None, Expired, 1) else Along(id, [])
    case None =>
      match Push(NewPending(peer, [], now), packet)
      case None => Oversized
      case Some(p) => Arrives(None, p, Success(Route(Udp(addr), t.config.maxLifetime)))
  }

  ghost function ClientFate(env: Env, t: Table, peer: SocketAddr, packet: seq<byte>, now: nat): Fate {
    if packet == [] || PacketConnection(t.connections, packet).Failure? then Dropped(None, Malformed, 1)
    else
      var (long, connId) := PacketConnection(t.connections, packet).value;
      match LbBackend(t.config, packet, long)
      case Some(addr) => LbFate(env, t, peer, packet, addr, now)
      case None =>
        match connId
        case None => UnroutedFate(env, t, peer, packet, long, now)
        case Some(id) =>
          if Normalize(peer) == t.connections[id].Client() then Along(id, SourceId(long))
          else Dropped(None, UnexpectedPeer, 1)
  }

  /** The table without a handshake that is over. */
  ghost function Spend(t: Table, spent: Option<PendingKey>): Table {
    if spent.Some? then WithoutPending(t, spent.value) else t
  }

  /** What the step does to meet a fate. */
  ghost function Meet(env: Env, t: Table, peer: SocketAddr, packet: seq<byte>, io: Io, fate: Fate): Out {
    match fate
    case Dropped(spent, reason, count) => Out(Spend(t, spent).Drop(reason, count), true)
    case Along(id, scid) => ForwardClient(env, t, id, peer, packet, scid, io.t2, io.sends(0))
    case Waits(key, p) => Out(t.(pending := t.pending[key := p]), true)
    case Arrives(spent, p, route) =>
      (match route
       case Failure(_) => Out(Spend(t, spent), false)
       case Success(route) => Establish(env, Spend(t, spent), p, route, io))
    case Oversized => Out(t, false)
  }

  ghost function ClientStep(env: Env, t: Table, peer: SocketAddr, packet: seq<byte>, io: Io): Out {
    Meet(env, t, peer, packet, io, ClientFate(env, t, peer, packet, io.t1))
  }

  // ----- the steps

  function RetryKey(long: Option<L.Cids>): Option<Cid> {
    if long.Some? && long.value.version == L.VERSION_1 && long.value.packetType == L.TYPE_RETRY && long.value.scid != []
    then Some(long.value.scid)
    else None
  }

  ghost function BackendStep(env: Env, t: Table, id: nat, packet: seq<byte>, now: nat, sendOk: bool): Out {
    match L.Parse(packet)
    case Failure(_) => Out(t.Drop(MalformedBackend, 1), true)
    case Success(long) =>
      if id !in t.connections then Out(t.Drop(StaleBackend, 1), true)
      else
        var c := t.connections[id];
        if c.Expired(now, env.idleTimeout) then Out(t.Drop(Expired, 1), true)
        else
          var c1 := c.(lastSeen := now, initialKeyDcid := RetryKey(long).GetOr(c.initialKeyDcid));
          var t1 := Learn(env, t.(connections := t.connections[id := c1]), id, SourceId(long));
          if sendOk then Out(t1.(toClient := t1.toClient + [Reply(id, c.clientAddr, packet)]), true)
          else Out(t1, false)
  }

  function PendingTimeoutOf(env: Env, config: LoadedConfig): nat {
    var timeout := config.handshakeTimeout.GetOr(env.idleTimeout);
    if timeout <= env.idleTimeout then timeout else env.idleTimeout
  }

  /** Time from then to now, or zero. */
  function Since(now: nat, then_: nat): nat {
    if now >= then_ then now - then_ else 0
  }

  predicate Stale(env: Env, config: LoadedConfig, p: Pending, now: nat) {
    Since(now, p.lastSeen) >= PendingTimeoutOf(env, config) || Since(now, p.created) >= PendingTimeoutOf(env, config)
  }

  ghost function StaleKeys(env: Env, t: Table, now: nat): set<PendingKey> {
    set k | k in t.pending && Stale(env, t.config, t.pending[k], now)
  }

  ghost function ExpiredIds(env: Env, t: Table, now: nat): set<nat> {
    set id | id in t.connections && t.connections[id].Expired(now, env.idleTimeout)
  }

  ghost function CleanupStep(env: Env, t: Table, now: nat): Table {
    var stale := StaleKeys(env, t, now);
    t.(connections := t.connections - ExpiredIds(env, t, now),
       shared := t.shared - ExpiredIds(env, t, now),
       pending := t.pending - stale)
     .Drop(PendingTimeout, Total(map k | k in Counts(t.pending) && k in stale :: Counts(t.pending)[k]))
  }

  datatype Event =
    | ClientDatagram(peer: SocketAddr, packet: seq<byte>, io: Io)
    | BackendDatagram(id: nat, packet: seq<byte>, now: nat, sendOk: bool)
    | Reload(config: LoadedConfig)
    | Cleanup(now: nat)

  ghost function Step(env: Env, t: Table, e: Event): Out {
    match e
    case ClientDatagram(peer, packet, io) => ClientStep(env, t, peer, packet, io)
    case BackendDatagram(id, packet, now, sendOk) => BackendStep(env, t, id, packet, now, sendOk)
    case Reload(config) => Out(t.(config := config), true)
    case Cleanup(now) => Out(CleanupStep(env, t, now), true)
  }
}
