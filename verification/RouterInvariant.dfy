/** What holds of the router's table in every reachable state, and that each step keeps it. */
module RouterInvariant {
  import opened Wrappers
  import opened Bytes
  import opened Addresses
  import opened Routing
  import opened Totals
  import opened Frames
  import opened RouterTable
  import QuicLb
  import L = LongHeader
  import P = InitialProtection
  import R = CryptoReassembly

  // ----- the invariant

  ghost predicate ConnectionOk(env: Env, nextId: nat, id: nat, c: Connection) {
    id < nextId && [] !in c.cids && |c.cids| <= env.limits.maxCidsPerPath
  }

  /** No id has two owners. */
  ghost predicate OneOwner(conns: Connections) {
    forall i, j, cid :: Owns(conns, i, cid) && Owns(conns, j, cid) ==> i == j
  }

  ghost predicate ConnectionsOk(env: Env, nextId: nat, conns: Connections) {
    |conns| <= env.limits.maxPaths && OneOwner(conns) &&
    forall id <- conns :: ConnectionOk(env, nextId, id, conns[id])
  }

  /** Shared paths exist, go to normalized addresses, and no two have the same client and backend. */
  ghost predicate SharedOk(conns: Connections, shared: set<nat>) {
    (forall id <- shared :: id in conns && Normalize(conns[id].backend) == conns[id].backend) &&
    forall i, j | i in shared && j in shared && conns[i].PathKey() == conns[j].PathKey() :: i == j
  }

  function Lengths(datagrams: seq<seq<byte>>): nat {
    if datagrams == [] then 0 else Lengths(datagrams[..|datagrams| - 1]) + |datagrams[|datagrams| - 1]|
  }

  /** CRYPTO chunks of a datagram that decrypts as a fresh Initial, with its source id. */
  function PacketChunks(primitives: P.Primitives, packet: seq<byte>): Option<(seq<Chunk>, Cid)> {
    match P.Decrypt(primitives, packet, None)
    case Failure(_) => None
    case Success(d) =>
      match Crypto(d.payload)
      case Failure(_) => None
      case Success(chunks) => Some((chunks, d.scid))
  }

  /** All chunks of the datagrams, in order. */
  function AllChunks(primitives: P.Primitives, datagrams: seq<seq<byte>>): Option<seq<Chunk>> {
    if datagrams == [] then Some([])
    else
      match (AllChunks(primitives, datagrams[..|datagrams| - 1]), PacketChunks(primitives, datagrams[|datagrams| - 1]))
      case (Some(before), Some((chunks, _))) => Some(before + chunks)
      case _ => None
  }

  function SourceIds(primitives: P.Primitives, datagrams: seq<seq<byte>>): set<Cid> {
    if datagrams == [] then {}
    else
      var before := SourceIds(primitives, datagrams[..|datagrams| - 1]);
      match PacketChunks(primitives, datagrams[|datagrams| - 1])
      case Some((_, scid)) => if scid == [] then before else before + {scid}
      case None => before
  }

  /** The handshake's state is a replay of its buffered datagrams, and its ClientHello is incomplete. */
  ghost predicate Replays(primitives: P.Primitives, p: Pending) {
    AllChunks(primitives, p.datagrams).Some? &&
    R.InsertAll(R.State([], map[]), AllChunks(primitives, p.datagrams).value) == Success(p.crypto) &&
    p.clientCids == SourceIds(primitives, p.datagrams) &&
    R.ClientHello(p.crypto.bytes) == Success(None)
  }

  ghost predicate PendingOk(env: Env, key: PendingKey, p: Pending) {
    Normalize(p.clientAddr) == key.0 && p.initialDcid == key.1 &&
    |p.datagrams| <= MAX_PENDING_DATAGRAMS && p.bufferedBytes <= MAX_PENDING_BYTES &&
    p.bufferedBytes == Lengths(p.datagrams) && R.Bounded(p.crypto) &&
    Replays(env.primitives, p)
  }

  ghost predicate PendingsOk(env: Env, pending: map<PendingKey, Pending>) {
    |pending| <= env.limits.maxPendingHandshakes &&
    Total(Sizes(pending)) <= env.limits.maxPendingBytes &&
    forall key <- pending :: PendingOk(env, key, pending[key])
  }

  ghost predicate TableOk(env: Env, t: Table) {
    ConnectionsOk(env, t.nextId, t.connections) && SharedOk(t.connections, t.shared) && PendingsOk(env, t.pending)
  }

  // ----- changes to the connections

  /** Replacing a connection by one with more ids, none of them another's, and the same path. */
  lemma ReplaceConnection(env: Env, t: Table, id: nat, c: Connection)
    requires TableOk(env, t) && id in t.connections
    requires c.PathKey() == t.connections[id].PathKey()
    requires ConnectionOk(env, t.nextId, id, c)
    requires forall cid <- c.cids :: cid in t.connections[id].cids || OwnerOf(t.connections, cid).None?
    ensures TableOk(env, t.(connections := t.connections[id := c]))
  {
    hide PendingsOk, ConnectionOk, OwnerOf;
    var conns := t.connections[id := c];
    forall i, j, cid | Owns(conns, i, cid) && Owns(conns, j, cid) ensures i == j {
      OwnerIsFound(t.connections, i, cid);
      OwnerIsFound(t.connections, j, cid);
      assert i != id || cid in t.connections[id].cids ==> Owns(t.connections, i, cid);
      assert j != id || cid in t.connections[id].cids ==> Owns(t.connections, j, cid);
    }
    assert conns.Keys == t.connections.Keys;
    assert |conns| == |conns.Keys| == |t.connections.Keys|;
  }

  lemma IdsBelow(env: Env, nextId: nat, conns: Connections)
    requires ConnectionsOk(env, nextId, conns)
    ensures forall id <- conns :: id < nextId
  {
    forall id | id in conns ensures id < nextId {
      assert ConnectionOk(env, nextId, id, conns[id]);
    }
  }

  lemma TableIds(env: Env, t: Table)
    requires TableOk(env, t)
    ensures forall id <- t.connections :: id < t.nextId
  {
    IdsBelow(env, t.nextId, t.connections);
  }


  lemma OwnerIsFound(conns: Connections, id: nat, cid: Cid)
    ensures Owns(conns, id, cid) ==> OwnerOf(conns, cid).Some?
  {
  }

  lemma TouchConnection(env: Env, t: Table, id: nat, c: Connection)
    requires TableOk(env, t) && id in t.connections
    requires c.PathKey() == t.connections[id].PathKey() && c.cids == t.connections[id].cids
    ensures TableOk(env, t.(connections := t.connections[id := c]))
  {
    hide PendingsOk, SharedOk, OneOwner, OwnerOf;
    assert ConnectionOk(env, t.nextId, id, t.connections[id]);
    ReplaceConnection(env, t, id, c);
  }

  lemma AddOwner(conns: Connections, id: nat, c: Connection)
    requires OneOwner(conns) && id !in conns
    requires forall cid <- c.cids :: OwnerOf(conns, cid).None?
    ensures OneOwner(conns[id := c])
  {
    hide OwnerOf;
    var more := conns[id := c];
    forall i, j, cid | Owns(more, i, cid) && Owns(more, j, cid) ensures i == j {
      OwnerIsFound(conns, i, cid);
      OwnerIsFound(conns, j, cid);
      assert i != id ==> Owns(conns, i, cid);
      assert j != id ==> Owns(conns, j, cid);
    }
  }

  lemma AddConnection(env: Env, t: Table, c: Connection, isShared: bool)
    requires TableOk(env, t) && |t.connections| < env.limits.maxPaths
    requires [] !in c.cids && |c.cids| <= env.limits.maxCidsPerPath
    requires forall cid <- c.cids :: OwnerOf(t.connections, cid).None?
    requires isShared ==> Normalize(c.backend) == c.backend
    requires isShared ==> SharedPath(t.connections, t.shared, c.PathKey()).None?
    ensures TableOk(env, t.(nextId := t.nextId + 1, connections := t.connections[t.nextId := c],
                            shared := if isShared then t.shared + {t.nextId} else t.shared))
  {
    hide PendingsOk, Connection.PathKey, OwnerOf, OneOwner;
    var id := t.nextId;
    IdsBelow(env, t.nextId, t.connections);
    var conns := t.connections[id := c];
    AddOwner(t.connections, id, c);
    forall x | x in conns ensures ConnectionOk(env, id + 1, x, conns[x]) {
      if x != id {
        assert ConnectionOk(env, t.nextId, x, t.connections[x]);
      }
    }
    if isShared {
      forall i | i in t.shared ensures t.connections[i].PathKey() != c.PathKey() {
        assert !IsPath(t.connections, t.shared, c.PathKey(), i);
      }
    }
  }

  lemma LearnKeeps(env: Env, t: Table, id: nat, cid: Cid)
    requires TableOk(env, t)
    ensures TableOk(env, Learn(env, t, id, cid))
  {
    hide PendingsOk, SharedOk, OneOwner, OwnerOf, QuicLb.Lookup;
    if id in t.connections && Learn(env, t, id, cid).connections != t.connections {
      assert ConnectionOk(env, t.nextId, id, t.connections[id]);
      ReplaceConnection(env, t, id, WithCids(t.connections[id], {cid}));
    }
  }

  lemma ForwardClientKeeps(env: Env, t: Table, id: nat, peer: SocketAddr, packet: seq<byte>, scid: Cid,
                           now: nat, sendOk: bool)
    requires TableOk(env, t)
    requires id in t.connections ==> t.connections[id].Client() == Normalize(peer)
    ensures TableOk(env, ForwardClient(env, t, id, peer, packet, scid, now, sendOk).t)
  {
    hide ConnectionsOk, PendingsOk, SharedOk, Learn, Normalize, Connection.Expired;
    if id in t.connections {
      var c := t.connections[id];
      var c1 := c.(clientAddr := peer, lastSeen := now);
      var t1 := t.(connections := t.connections[id := c1]);
      TouchConnection(env, t, id, c1);
      LearnKeeps(env, t1.(toBackend := t1.toBackend + [Forwarded(id, c.backend, Normalize(peer), packet)]), id, scid);
    }
  }

  // ----- registration

  lemma RequestedAmong(p: Pending)
    ensures [] !in p.Requested() && p.Requested() <= p.clientCids + {p.initialDcid}
  {
  }

  lemma RegistrableIsFree(env: Env, t: Table, p: Pending, existing: Option<nat>)
    requires existing.Some? ==> existing.value in t.connections
    requires Refusal(env, t, p, existing).None?
    ensures forall cid <- p.Requested() ::
              OwnerOf(t.connections, cid).None? || OwnerOf(t.connections, cid) == Some(existing.GetOr(t.nextId))
    ensures [] !in p.Requested()
    ensures existing.None? ==> |p.Requested()| <= env.limits.maxCidsPerPath && |t.connections| < env.limits.maxPaths
    ensures existing.Some? ==>
              |t.connections[existing.value].cids + p.Requested()| <= env.limits.maxCidsPerPath
  {
    hide OwnerOf, Pending.Requested;
    RequestedAmong(p);
    var retained := if existing.Some? then t.connections[existing.value].cids else {};
    UnionSize(retained, p.Requested());
    assert retained == {} ==> retained + p.Requested() == p.Requested();
  }

  lemma UnionSize<T>(a: set<T>, b: set<T>)
    ensures |a + b| == |a| + |b - a|
  {
    assert a + b == a + (b - a);
  }

  lemma JoinKeeps(env: Env, t: Table, id: nat, p: Pending, route: Route, io: Io)
    requires TableOk(env, t) && id in t.connections && Refusal(env, t, p, Some(id)).None?
    ensures TableOk(env, Join(env, t, id, p, route, io).t)
  {
    hide PendingsOk, SharedOk, OneOwner, Refusal, Pending.Requested, QuicLb.Lookup, Connection.Expired, OwnerOf;
    RegistrableIsFree(env, t, p, Some(id));
    var c := t.connections[id];
    assert ConnectionOk(env, t.nextId, id, c);
    var c1 := c.(deadline := MinTimeout(c.deadline, AddTimeout(io.t2, route.timeout)));
    var c2 := WithCids(c1.(lastSeen := io.t2), Registrable(t, p));
    TouchConnection(env, t, id, c1);
    assert c2.cids <= c.cids + p.Requested();
    SubsetSize(c2.cids, c.cids + p.Requested());
    forall cid | cid in c2.cids ensures cid in c.cids || OwnerOf(t.connections, cid).None? {
      if cid !in c.cids {
        OwnerIsHere(t.connections, cid);
      }
    }
    ReplaceConnection(env, t, id, c2);
  }

  lemma SubsetSize<T>(a: set<T>, b: set<T>)
    requires a <= b
    ensures |a| <= |b|
  {
    assert b == a + (b - a);
  }

  lemma CreateKeeps(env: Env, t: Table, p: Pending, addr: SocketAddr, route: Route, io: Io)
    requires TableOk(env, t)
    requires Refusal(env, t, p, None).None? && Existing(t, Normalize(p.clientAddr), addr).None?
    ensures TableOk(env, Create(env, t, p, addr, route, io).t)
  {
    hide PendingsOk, Refusal, Pending.Requested, QuicLb.IsServer, OwnerOf, SharedPath;
    RegistrableIsFree(env, t, p, None);
    NormalizeKeepsPeer(addr);
    var isShared := QuicLb.IsServer(t.config.quicLb, Normalize(addr));
    var c := Connection(if isShared then Normalize(addr) else addr, p.clientAddr, p.initialDcid, p.Requested(),
                        io.t2, io.t2, AddTimeout(io.t2, route.timeout));
    forall cid | cid in c.cids ensures OwnerOf(t.connections, cid).None? {
      OwnerIsHere(t.connections, cid);
      IdsBelow(env, t.nextId, t.connections);
    }
    AddConnection(env, t, c, isShared);
    forall id | id in t.connections ensures ConnectionOk(env, t.nextId + 1, id, t.connections[id]) {
      assert ConnectionOk(env, t.nextId, id, t.connections[id]);
    }
  }

  lemma EstablishKeeps(env: Env, t: Table, p: Pending, route: Route, io: Io)
    requires TableOk(env, t)
    ensures TableOk(env, Establish(env, t, p, route, io).t)
  {
    hide ConnectionsOk, SharedOk, PendingsOk, Refusal, Join, Create, Existing, Normalize;
    if route.backend.Udp? {
      var existing := Existing(t, Normalize(p.clientAddr), route.backend.addr);
      if Refusal(env, t, p, existing).None? {
        match existing
        case Some(id) => JoinKeeps(env, t, id, p, route, io);
        case None => CreateKeeps(env, t, p, route.backend.addr, route, io);
      }
    }
  }

  // ----- buffering

  lemma SizesUpdate(pending: map<PendingKey, Pending>, key: PendingKey, p: Pending)
    ensures Total(Sizes(pending[key := p])) == Total(Sizes(pending - {key})) + p.bufferedBytes
    ensures Total(Counts(pending[key := p])) == Total(Counts(pending - {key})) + |p.datagrams|
    ensures key !in pending ==> pending - {key} == pending
  {
    hide Total;
    assert Sizes(pending[key := p]) == Sizes(pending)[key := p.bufferedBytes];
    assert Counts(pending[key := p]) == Counts(pending)[key := |p.datagrams|];
    assert Sizes(pending - {key}) == Sizes(pending) - {key};
    assert Counts(pending - {key}) == Counts(pending) - {key};
    TotalUpdate(Sizes(pending), key, p.bufferedBytes);
    TotalUpdate(Counts(pending), key, |p.datagrams|);
    if key !in pending {
      assert pending - {key} == pending;
    }
  }

  lemma SizesRemove(pending: map<PendingKey, Pending>, key: PendingKey)
    requires key in pending
    ensures Total(Sizes(pending)) == Total(Sizes(pending - {key})) + pending[key].bufferedBytes
    ensures Total(Counts(pending)) == Total(Counts(pending - {key})) + |pending[key].datagrams|
  {
    SizesUpdate(pending, key, pending[key]);
    assert pending[key := pending[key]] == pending;
  }

  lemma RemovePendingKeeps(env: Env, t: Table, key: PendingKey)
    requires TableOk(env, t)
    ensures TableOk(env, WithoutPending(t, key))
  {
    hide ConnectionsOk, SharedOk, PendingOk;
    if key in t.pending {
      SizesRemove(t.pending, key);
      assert (t.pending - {key}).Keys == t.pending.Keys - {key};
    } else {
      assert t.pending - {key} == t.pending;
    }
  }

  lemma LengthsGrow(datagrams: seq<seq<byte>>, packet: seq<byte>)
    ensures Lengths(datagrams + [packet]) == Lengths(datagrams) + |packet|
  {
    assert (datagrams + [packet])[..|datagrams|] == datagrams;
  }

  lemma ReplayGrows(primitives: P.Primitives, datagrams: seq<seq<byte>>, packet: seq<byte>, chunks: seq<Chunk>, scid: Cid)
    requires AllChunks(primitives, datagrams).Some? && PacketChunks(primitives, packet) == Some((chunks, scid))
    ensures AllChunks(primitives, datagrams + [packet]) == Some(AllChunks(primitives, datagrams).value + chunks)
    ensures SourceIds(primitives, datagrams + [packet]) ==
            SourceIds(primitives, datagrams) + if scid == [] then {} else {scid}
  {
    hide PacketChunks;
    assert (datagrams + [packet])[..|datagrams|] == datagrams;
  }

  /** Absorbing a datagram extends the replay by that datagram. */
  lemma AbsorbReplays(primitives: P.Primitives, p: Pending, packet: seq<byte>, chunks: seq<Chunk>, scid: Cid, now: nat)
    requires Replays(primitives, p) && R.Bounded(p.crypto) && PacketChunks(primitives, packet) == Some((chunks, scid))
    requires !Absorb(p, packet, scid, chunks, now).Rejected?
    ensures var p1 := Absorb(p, packet, scid, chunks, now).p;
            p1.datagrams == p.datagrams + [packet] && R.Bounded(p1.crypto) &&
            AllChunks(primitives, p1.datagrams) == Some(AllChunks(primitives, p.datagrams).value + chunks) &&
            R.InsertAll(R.State([], map[]), AllChunks(primitives, p1.datagrams).value) == Success(p1.crypto) &&
            p1.clientCids == SourceIds(primitives, p1.datagrams) &&
            (Absorb(p, packet, scid, chunks, now).Waiting? ==> Replays(primitives, p1))
  {
    hide R.InsertAll, R.ClientHello, R.Bounded, PacketChunks, NameOf, AllChunks, SourceIds;
    ReplayGrows(primitives, p.datagrams, packet, chunks, scid);
    R.InsertAllConcat(R.State([], map[]), AllChunks(primitives, p.datagrams).value, chunks);
    R.InsertAllBounded(p.crypto, chunks);
  }

  lemma NewPendingOk(env: Env, peer: SocketAddr, dcid: Cid, now: nat)
    ensures PendingOk(env, (Normalize(peer), dcid), NewPending(peer, dcid, now))
  {
    var p := NewPending(peer, dcid, now);
    assert AllChunks(env.primitives, p.datagrams) == Some([]);
    assert R.InsertAll(p.crypto, []) == Success(p.crypto);
  }

  lemma AbsorbKeeps(env: Env, key: PendingKey, p: Pending, packet: seq<byte>, chunks: seq<Chunk>, scid: Cid, now: nat)
    requires PendingOk(env, key, p) && PacketChunks(env.primitives, packet) == Some((chunks, scid))
    requires Absorb(p, packet, scid, chunks, now).Waiting?
    ensures PendingOk(env, key, Absorb(p, packet, scid, chunks, now).p)
    ensures Absorb(p, packet, scid, chunks, now).p.bufferedBytes == p.bufferedBytes + |packet|
  {
    hide Replays, R.Bounded, R.InsertAll, R.ClientHello, PacketChunks, Lengths, Normalize;
    AbsorbReplays(env.primitives, p, packet, chunks, scid, now);
    LengthsGrow(p.datagrams, packet);
  }

  lemma WaitingKeeps(env: Env, t: Table, key: PendingKey, p: Pending)
    requires TableOk(env, t) && PendingOk(env, key, p)
    requires key in t.pending || |t.pending| < env.limits.maxPendingHandshakes
    requires Total(Sizes(t.pending - {key})) + p.bufferedBytes <= env.limits.maxPendingBytes
    ensures TableOk(env, t.(pending := t.pending[key := p]))
  {
    hide ConnectionsOk, SharedOk, PendingOk, Total, Sizes, Counts;
    SizesUpdate(t.pending, key, p);
    var pending := t.pending[key := p];
    UpdateSize(t.pending, key, p);
  }

  lemma UpdateSize<K, V>(m: map<K, V>, k: K, v: V)
    ensures |m[k := v]| == if k in m then |m| else |m| + 1
  {
    if k in m {
      assert m[k := v].Keys == m.Keys;
      assert |m[k := v]| == |m[k := v].Keys|;
    }
  }

  lemma PendingAtOk(env: Env, t: Table, peer: SocketAddr, dcid: Cid, now: nat)
    requires TableOk(env, t)
    ensures var key := (Normalize(peer), dcid); var p := PendingAt(t, peer, dcid, now);
            PendingOk(env, key, p) && PendingBytes(t) == Total(Sizes(t.pending - {key})) + p.bufferedBytes &&
            Buffered(t) == Total(Counts(t.pending - {key})) + |p.datagrams|
  {
    hide ConnectionsOk, SharedOk, PendingOk, Total, Normalize;
    var key := (Normalize(peer), dcid);
    if key in t.pending {
      SizesRemove(t.pending, key);
    } else {
      NewPendingOk(env, peer, dcid, now);
      assert t.pending - {key} == t.pending;
    }
  }

  /** A handshake that waits is kept as it should be. */
  lemma WaitingIsOk(env: Env, t: Table, peer: SocketAddr, packet: seq<byte>, d: P.Decrypted, chunks: seq<Chunk>, now: nat)
    requires TableOk(env, t) && PacketChunks(env.primitives, packet) == Some((chunks, d.scid))
    requires (Normalize(peer), d.dcid) in t.pending || |t.pending| < env.limits.maxPendingHandshakes
    requires PendingBytes(t) + |packet| <= env.limits.maxPendingBytes
    ensures var r := Absorb(PendingAt(t, peer, d.dcid, now), packet, d.scid, chunks, now);
            r.Waiting? ==> TableOk(env, t.(pending := t.pending[(Normalize(peer), d.dcid) := r.p]))
  {
    hide ConnectionsOk, SharedOk, PendingsOk, PendingOk, Absorb, Normalize, Total, Sizes, PacketChunks, NewPending;
    var key := (Normalize(peer), d.dcid);
    PendingAtOk(env, t, peer, d.dcid, now);
    var p := PendingAt(t, peer, d.dcid, now);
    var r := Absorb(p, packet, d.scid, chunks, now);
    if r.Waiting? {
      AbsorbKeeps(env, key, p, packet, chunks, d.scid, now);
      WaitingKeeps(env, t, key, r.p);
    }
  }

  lemma HandshakeWaits(env: Env, t: Table, peer: SocketAddr, packet: seq<byte>, d: P.Decrypted, chunks: seq<Chunk>, now: nat)
    requires TableOk(env, t) && PacketChunks(env.primitives, packet) == Some((chunks, d.scid))
    ensures var fate := HandshakeFate(env, t, peer, packet, d, chunks, now);
            fate.Waits? ==> TableOk(env, t.(pending := t.pending[fate.key := fate.p]))
  {
    hide TableOk, Absorb, RouteForSni, Normalize, PendingBytes, PacketChunks, PendingAt;
    if ((Normalize(peer), d.dcid) in t.pending || |t.pending| < env.limits.maxPendingHandshakes) &&
       PendingBytes(t) + |packet| <= env.limits.maxPendingBytes {
      WaitingIsOk(env, t, peer, packet, d, chunks, now);
    }
  }

  // ----- the steps

  /** A fate that concerns a connection concerns one of its client's, and one that waits leaves the table sound. */
  ghost predicate FateOk(env: Env, t: Table, peer: SocketAddr, fate: Fate) {
    (fate.Along? ==> fate.id in t.connections && t.connections[fate.id].Client() == Normalize(peer)) &&
    (fate.Waits? ==> TableOk(env, t.(pending := t.pending[fate.key := fate.p])))
  }

  lemma UnroutedSound(env: Env, t: Table, peer: SocketAddr, packet: seq<byte>, long: Option<L.Cids>, now: nat)
    requires TableOk(env, t)
    ensures FateOk(env, t, peer, UnroutedFate(env, t, peer, packet, long, now))
  {
    hide TableOk, HandshakeFate, P.Decrypt, Crypto, Normalize, Connection.Expired;
    var d := P.Decrypt(env.primitives, packet, None);
    if d.Success? && Crypto(d.value.payload).Success? {
      HandshakeWaits(env, t, peer, packet, d.value, Crypto(d.value.payload).value, now);
      HandshakeNotAlong(env, t, peer, packet, d.value, Crypto(d.value.payload).value, now);
    }
  }

  lemma HandshakeNotAlong(env: Env, t: Table, peer: SocketAddr, packet: seq<byte>, d: P.Decrypted, chunks: seq<Chunk>, now: nat)
    ensures !HandshakeFate(env, t, peer, packet, d, chunks, now).Along?
  {
    hide Absorb, RouteForSni, Normalize, PendingBytes;
  }

  lemma ClientSound(env: Env, t: Table, peer: SocketAddr, packet: seq<byte>, now: nat)
    requires TableOk(env, t)
    ensures FateOk(env, t, peer, ClientFate(env, t, peer, packet, now))
  {
    hide TableOk, UnroutedFate, PacketConnection, LbBackend, Normalize, Connection.Expired, Push;
    if packet != [] && PacketConnection(t.connections, packet).Success? {
      UnroutedSound(env, t, peer, packet, PacketConnection(t.connections, packet).value.0, now);
    }
  }

  lemma SpendKeeps(env: Env, t: Table, spent: Option<PendingKey>)
    requires TableOk(env, t)
    ensures TableOk(env, Spend(t, spent))
  {
    hide TableOk;
    if spent.Some? {
      RemovePendingKeeps(env, t, spent.value);
    }
  }

  lemma ClientStepKeeps(env: Env, t: Table, peer: SocketAddr, packet: seq<byte>, io: Io)
    requires TableOk(env, t)
    ensures TableOk(env, ClientStep(env, t, peer, packet, io).t)
  {
    hide ConnectionsOk, SharedOk, PendingsOk, ClientFate, ForwardClient, Establish, Spend, Normalize;
    ClientSound(env, t, peer, packet, io.t1);
    match ClientFate(env, t, peer, packet, io.t1)
    case Dropped(spent, _, _) => SpendKeeps(env, t, spent);
    case Along(id, scid) => ForwardClientKeeps(env, t, id, peer, packet, scid, io.t2, io.sends(0));
    case Arrives(spent, p, route) =>
      SpendKeeps(env, t, spent);
      if route.Success? {
        EstablishKeeps(env, Spend(t, spent), p, route.value, io);
      }
    case _ =>
  }

  lemma BackendStepKeeps(env: Env, t: Table, id: nat, packet: seq<byte>, now: nat, sendOk: bool)
    requires TableOk(env, t)
    ensures TableOk(env, BackendStep(env, t, id, packet, now, sendOk).t)
  {
    hide ConnectionsOk, SharedOk, PendingsOk, Learn, L.Parse, Normalize;
    if L.Parse(packet).Success? && id in t.connections {
      var c := t.connections[id];
      var long := L.Parse(packet).value;
      var c1 := c.(lastSeen := now, initialKeyDcid := RetryKey(long).GetOr(c.initialKeyDcid));
      TouchConnection(env, t, id, c1);
      LearnKeeps(env, t.(connections := t.connections[id := c1]), id, SourceId(long));
    }
  }

  lemma FewerConnections(env: Env, t: Table, gone: set<nat>)
    requires ConnectionsOk(env, t.nextId, t.connections) && SharedOk(t.connections, t.shared)
    ensures ConnectionsOk(env, t.nextId, t.connections - gone) && SharedOk(t.connections - gone, t.shared - gone)
  {
    var conns := t.connections - gone;
    assert conns.Keys == t.connections.Keys - gone;
    SubsetSize(conns.Keys, t.connections.Keys);
    forall i, j, cid | Owns(conns, i, cid) && Owns(conns, j, cid) ensures i == j {
      assert Owns(t.connections, i, cid) && Owns(t.connections, j, cid);
    }
  }

  lemma FewerPendings(env: Env, pending: map<PendingKey, Pending>, gone: set<PendingKey>)
    requires PendingsOk(env, pending)
    ensures PendingsOk(env, pending - gone)
  {
    hide PendingOk;
    TotalSplit(Sizes(pending), gone);
    assert Sizes(pending - gone) == Sizes(pending) - gone;
    assert (pending - gone).Keys == pending.Keys - gone;
    SubsetSize((pending - gone).Keys, pending.Keys);
  }

  lemma CleanupKeeps(env: Env, t: Table, now: nat)
    requires TableOk(env, t)
    ensures TableOk(env, CleanupStep(env, t, now))
  {
    hide ConnectionsOk, SharedOk, PendingsOk, Total, Connection.Expired, Stale;
    FewerConnections(env, t, ExpiredIds(env, t, now));
    FewerPendings(env, t.pending, StaleKeys(env, t, now));
  }

  /** Every step keeps the invariant, whatever the sockets and the clock answer. */
  lemma StepKeeps(env: Env, t: Table, e: Event)
    requires TableOk(env, t)
    ensures TableOk(env, Step(env, t, e).t)
  {
    hide TableOk, ClientStep, BackendStep, CleanupStep;
    match e
    case ClientDatagram(peer, packet, io) => ClientStepKeeps(env, t, peer, packet, io);
    case BackendDatagram(id, packet, now, sendOk) => BackendStepKeeps(env, t, id, packet, now, sendOk);
    case Reload(config) => ReloadKeeps(env, t, config);
    case Cleanup(now) => CleanupKeeps(env, t, now);
  }

  lemma ReloadKeeps(env: Env, t: Table, config: LoadedConfig)
    requires TableOk(env, t)
    ensures TableOk(env, t.(config := config))
  {
    hide ConnectionsOk, SharedOk, PendingsOk;
  }

  // ----- runs

  ghost function Run(env: Env, t: Table, events: seq<Event>): Table
    decreases |events|
  {
    if events == [] then t else Run(env, Step(env, t, events[0]).t, events[1..])
  }

  /** Before the first event. */
  ghost predicate Initial(t: Table) {
    t.nextId == 0 && t.connections == map[] && t.shared == {} && t.pending == map[] &&
    t.toBackend == [] && t.toClient == [] && t.dropped == multiset{} && t.cidLimited == 0
  }

  lemma InitialOk(env: Env, t: Table)
    requires Initial(t)
    ensures TableOk(env, t)
  {
    assert Sizes(t.pending) == map[];
  }

  /** Indexes are unambiguous and all limits hold together in every reachable state. */
  lemma {:induction false} RunKeeps(env: Env, t: Table, events: seq<Event>)
    requires TableOk(env, t)
    ensures TableOk(env, Run(env, t, events))
    decreases |events|
  {
    hide TableOk, Step;
    if events != [] {
      StepKeeps(env, t, events[0]);
      RunKeeps(env, Step(env, t, events[0]).t, events[1..]);
    }
  }
}
