/**
 The HTTP/3 router as it runs: one object with a table of connections, three indexes over it and a
 byte counter over the pending handshakes. Every method is proved to do to the object's abstract
 table what the scanning functions of RouterTable do, and to keep the indexes exact.
 */
module Router {
  import opened Wrappers
  import opened Bytes
  import opened Addresses
  import opened Routing
  import opened Totals
  import opened Frames
  import opened RouterTable
  import opened RouterInvariant
  import opened RouterIndexes
  import C = CidRoutes
  import QuicLb
  import L = LongHeader
  import P = InitialProtection
  import R = CryptoReassembly
  import Hello = ClientHello

  class Router {
    const env: Env
    const cidRoutes: C.Index
    var config: LoadedConfig
    var nextId: nat
    var connections: map<nat, Connection>
    var lbPaths: map<PathKey, nat>
    var clientRoutes: map<SocketAddr, set<nat>>
    var pending: map<PendingKey, Pending>
    var pendingBytes: nat
    var dropped: multiset<Reason>
    var cidLimited: nat
    ghost var shared: set<nat>
    ghost var toBackend: seq<Forwarded>
    ghost var toClient: seq<Reply>

    ghost function Value(): Table
      reads this
    {
      Table(config, nextId, connections, shared, pending, toBackend, toClient, dropped, cidLimited)
    }

    /** The indexes are exact. */
    ghost predicate Indexed()
      reads this, cidRoutes
    {
      cidRoutes.Valid() && CidsExact(cidRoutes.owners, connections) &&
      ClientsExact(clientRoutes, connections) && PathsExact(lbPaths, connections, shared)
    }

    ghost predicate Valid()
      reads this, cidRoutes
    {
      Indexed() && pendingBytes == PendingBytes(Value()) && TableOk(env, Value())
    }

    constructor (env: Env, config: LoadedConfig)
      ensures Valid() && fresh(cidRoutes)
      ensures Initial(Value()) && this.env == env && this.config == config
    {
      this.env := env;
      this.config := config;
      cidRoutes := new C.Index();
      nextId, connections, lbPaths, clientRoutes, pending := 0, map[], map[], map[], map[];
      pendingBytes, dropped, cidLimited := 0, multiset{}, 0;
      shared, toBackend, toClient := {}, [], [];
      new;
      assert Sizes(pending) == map[];
      InitialOk(env, Value());
    }

    method Drop(reason: Reason, count: nat)
      requires Valid()
      modifies this`dropped
      ensures Valid() && Value() == old(Value()).Drop(reason, count)
    {
      hide ConnectionsOk, SharedOk, PendingsOk, CidsExact, ClientsExact, PathsExact;
      dropped := dropped[reason := dropped[reason] + count];
    }

    method SetConfig(config: LoadedConfig)
      requires Valid()
      modifies this`config
      ensures Valid() && Value() == old(Value()).(config := config)
    {
      hide ConnectionsOk, SharedOk, PendingsOk, CidsExact, ClientsExact, PathsExact;
      this.config := config;
    }

    // ----- lookups

    method MatchShortHeaderRoute(packet: seq<byte>) returns (r: Option<nat>)
      requires Valid() && packet != [] && packet[0] < 0x80
      ensures r == LongestOwnerOf(connections, packet[1..], |packet| - 1)
    {
      hide TableOk, CidsExact;
      r := cidRoutes.MatchPrefix(packet[1..]);
      PrefixLookup(cidRoutes.owners, connections, packet[1..], |packet| - 1);
    }

    method PacketConnectionId(packet: seq<byte>) returns (r: Result<(Option<L.Cids>, Option<nat>), L.Error>)
      requires Valid()
      ensures r == PacketConnection(connections, packet)
    {
      hide TableOk, CidsExact, L.Parse;
      var parsed := L.Parse(packet);
      if parsed.Failure? {
        return Failure(parsed.error);
      }
      var long := parsed.value;
      if long.Some? {
        var owner := cidRoutes.Get(long.value.dcid);
        CidLookup(cidRoutes.owners, connections, long.value.dcid);
        return Success((long, owner));
      }
      var owner: Option<nat> := None;
      if packet != [] {
        ShortHeader(packet);
        owner := MatchShortHeaderRoute(packet);
      }
      return Success((None, owner));
    }

    /** The client's only live connection. */
    method PeerConnectionId(peer: SocketAddr, now: nat) returns (r: Option<nat>)
      requires Valid()
      ensures r == PeerConnection(env, connections, peer, now)
    {
      hide TableOk, CidsExact, ClientsExact, PathsExact, Connection.Expired;
      var a := Normalize(peer);
      PeerLookup(env, clientRoutes, connections, peer, now);
      hide Normalize, LivePeer;
      if a !in clientRoutes {
        return None;
      }
      var live := set id | id in clientRoutes[a] && id in connections && !connections[id].Expired(now, env.idleTimeout);
      assert forall x :: LivePeer(env, connections, a, now, x) <==> x in live;
      if live == {} {
        return None;
      }
      var id: nat :| id in live;
      assert LivePeer(env, connections, a, now, id);
      if live - {id} != {} {
        ghost var other: nat :| other in live - {id};
        assert LivePeer(env, connections, a, now, other);
        return None;
      }
      forall x | x in live ensures x == id {
        assert x == id || x in live - {id};
      }
      return Some(id);
    }

    // ----- connections in place

    /** Overwrites a connection without touching its ids or its path: the indexes need no update. */
    method Touch(id: nat, c: Connection)
      requires Valid() && id in connections
      requires c.cids == connections[id].cids && c.PathKey() == connections[id].PathKey()
      modifies this`connections
      ensures Valid() && Value() == old(Value()).(connections := old(connections)[id := c])
    {
      hide ConnectionsOk, SharedOk, PendingsOk, CidsExact, ClientsExact, PathsExact, Connection.PathKey;
      TouchKeepsIndexes(cidRoutes.owners, clientRoutes, lbPaths, connections, shared, id, c);
      TouchConnection(env, Value(), id, c);
      connections := connections[id := c];
    }

    method AddCidRoute(id: nat, cid: Cid)
      requires Valid()
      modifies this, cidRoutes
      ensures Valid() && Value() == Learn(env, old(Value()), id, cid)
    {
      hide ConnectionsOk, SharedOk, PendingsOk, CidsExact, ClientsExact, PathsExact, QuicLb.Lookup, OwnerOf;
      if cid == [] || QuicLb.Lookup(config.quicLb, cid).Some? {
        return;
      }
      if id in connections {
        var c := connections[id];
        if cid in c.cids {
          return;
        }
        LearnKeeps(env, Value(), id, cid);
        if |c.cids| >= env.limits.maxCidsPerPath {
          cidLimited := cidLimited + 1;
          return;
        }
        CidLookup(cidRoutes.owners, connections, cid);
        NotMine(cidRoutes.owners, connections, id, cid);
        ghost var before := cidRoutes.owners;
        var inserted := cidRoutes.Insert(cid, id);
        if !inserted {
          return;
        }
        GiveOne(before, cidRoutes.owners, connections, id, cid);
        TouchLearned(clientRoutes, lbPaths, connections, shared, id, WithCids(c, {cid}));
        connections := connections[id := c.(cids := c.cids + {cid})];
      }
    }

    // ----- forwarding

    /**
     The socket takes the datagram or fails. Callers have looked the connection up under the peer's
     own address, which is why overwriting the client address leaves the index of clients exact.
     */
    method ForwardEstablishedClientDatagram(id: nat, peer: SocketAddr, packet: seq<byte>, scid: Cid, now: nat, sendOk: bool)
      returns (ok: bool)
      requires Valid()
      requires id in connections ==> connections[id].Client() == Normalize(peer)
      modifies this, cidRoutes
      ensures Valid()
      ensures Out(Value(), ok) == ForwardClient(env, old(Value()), id, peer, packet, scid, now, sendOk)
    {
      hide Valid, Learn, Connection.Expired, Normalize;
      if id !in connections {
        return true;
      }
      var c := connections[id];
      if c.Expired(now, env.idleTimeout) {
        Drop(Expired, 1);
        return true;
      }
      Touch(id, c.(clientAddr := peer, lastSeen := now));
      if !sendOk {
        return false;
      }
      LogForwarded([Forwarded(id, c.backend, Normalize(peer), packet)]);
      AddCidRoute(id, scid);
      return true;
    }

    /** The send log is not part of the program; it records what the sockets took. */
    ghost method LogForwarded(sent: seq<Forwarded>)
      requires Valid()
      modifies this`toBackend
      ensures Valid() && Value() == old(Value()).(toBackend := old(toBackend) + sent)
    {
      hide ConnectionsOk, SharedOk, PendingsOk, CidsExact, ClientsExact, PathsExact;
      toBackend := toBackend + sent;
    }

    ghost method LogReply(reply: Reply)
      requires Valid()
      modifies this`toClient
      ensures Valid() && Value() == old(Value()).(toClient := old(toClient) + [reply])
    {
      hide ConnectionsOk, SharedOk, PendingsOk, CidsExact, ClientsExact, PathsExact;
      toClient := toClient + [reply];
    }

    method ForwardByPeerAffinity(peer: SocketAddr, packet: seq<byte>, long: Option<L.Cids>, validateInitial: bool, io: Io)
      returns (ok: bool)
      requires Valid()
      modifies this, cidRoutes
      ensures Valid()
      ensures Out(Value(), ok) ==
              Meet(env, old(Value()), peer, packet, io,
                   AffinityFate(env, old(Value()), peer, packet, long, validateInitial, io.t1))
    {
      hide Valid, ForwardClient, PeerConnection, P.Decrypt, Establish;
      var id := PeerConnectionId(peer, io.t1);
      if id.None? {
        Drop(NoUniquePeer, 1);
        return true;
      }
      if validateInitial {
        var decrypted := P.DecryptInitial(env.primitives, packet, Some(connections[id.value].initialKeyDcid));
        if decrypted.Failure? {
          Drop(InvalidInitial, 1);
          return true;
        }
      }
      ok := ForwardEstablishedClientDatagram(id.value, peer, packet, SourceId(long), io.t2, io.sends(0));
    }

    method ForwardEstablishedBackendDatagram(id: nat, packet: seq<byte>, long: Option<L.Cids>, now: nat, sendOk: bool)
      returns (ok: bool)
      requires Valid() && L.Parse(packet) == Success(long)
      modifies this, cidRoutes
      ensures Valid()
      ensures Out(Value(), ok) == BackendStep(env, old(Value()), id, packet, now, sendOk)
    {
      hide Valid, Learn, Connection.Expired, L.Parse;
      if id !in connections {
        Drop(StaleBackend, 1);
        return true;
      }
      var c := connections[id];
      if c.Expired(now, env.idleTimeout) {
        Drop(Expired, 1);
        return true;
      }
      Touch(id, c.(lastSeen := now, initialKeyDcid := RetryKey(long).GetOr(c.initialKeyDcid)));
      AddCidRoute(id, SourceId(long));
      if !sendOk {
        return false;
      }
      LogReply(Reply(id, c.clientAddr, packet));
      return true;
    }

    method HandleBackendDatagram(id: nat, packet: seq<byte>, now: nat, sendOk: bool) returns (ok: bool)
      requires Valid()
      modifies this, cidRoutes
      ensures Valid()
      ensures Out(Value(), ok) == BackendStep(env, old(Value()), id, packet, now, sendOk)
    {
      var long := L.Parse(packet);
      if long.Failure? {
        Drop(MalformedBackend, 1);
        return true;
      }
      ok := ForwardEstablishedBackendDatagram(id, packet, long.value, now, sendOk);
    }

    lemma OneOwnerHere()
      requires Valid()
      ensures OneOwner(connections) && TableOk(env, Value())
    {
      hide OneOwner, SharedOk, PendingsOk;
    }

    // ----- registration

    /** Some id of the handshake belongs to another connection already. */
    method Collides(cids: set<Cid>, id: nat) returns (r: bool)
      requires Valid()
      ensures r <==> exists cid :: cid in cids && OwnerOf(connections, cid).Some? && OwnerOf(connections, cid).value != id
    {
      hide TableOk, CidsExact, OwnerOf;
      var rest := cids;
      while rest != {}
        invariant rest <= cids
        invariant forall cid <- cids - rest :: OwnerOf(connections, cid).None? || OwnerOf(connections, cid).value == id
        decreases |rest|
      {
        var cid :| cid in rest;
        var owner := cidRoutes.Get(cid);
        CidLookup(cidRoutes.owners, connections, cid);
        if owner.Some? && owner.value != id {
          return true;
        }
        rest := rest - {cid};
      }
      return false;
    }

    /** The checks that come before anything is sent or registered. */
    method CheckRegistration(p: Pending, existing: Option<nat>) returns (r: Option<Reason>)
      requires Valid() && (existing.Some? ==> existing.value in connections)
      ensures r == Refusal(env, Value(), p, existing)
    {
      hide Valid, OwnerOf, Pending.Requested;
      var collides := Collides(p.clientCids + {p.initialDcid}, existing.GetOr(nextId));
      if collides {
        return Some(CidCollision);
      }
      var retained: set<Cid> := if existing.Some? then connections[existing.value].cids else {};
      var additional := p.Requested() - retained;
      if |retained| + |additional| > env.limits.maxCidsPerPath {
        return Some(CidLimit);
      }
      if existing.None? && |connections| >= env.limits.maxPaths {
        return Some(PathLimit);
      }
      return None;
    }

    /** Sends the buffered datagrams in order until one fails. */
    method Flush(id: nat, c: Connection, datagrams: seq<seq<byte>>, io: Io) returns (ok: bool)
      requires Valid()
      modifies this`toBackend
      ensures Valid()
      ensures var n := SentCount(io.sends, |datagrams|);
              ok == (n == |datagrams|) &&
              Value() == old(Value()).(toBackend := old(toBackend) + Log(id, c, datagrams[..n]))
    {
      hide ConnectionsOk, SharedOk, PendingsOk, CidsExact, ClientsExact, PathsExact, Log;
      ok := FlushDatagrams(id, c, datagrams, io);
    }

    method AddRequested(ghost start: Table, id: nat, p: Pending, ghost done: set<Cid>, cid: Cid)
      requires Valid() && id in start.connections && Refusal(env, start, p, Some(id)).None?
      requires OneOwner(start.connections) && Value() == WithWanted(start, id, done)
      requires done <= p.clientCids + {p.initialDcid} && cid in p.clientCids + {p.initialDcid}
      modifies this, cidRoutes
      ensures Valid() && id in connections && Value() == WithWanted(start, id, done + {cid})
    {
      hide Valid, Learn, Refusal, WithWanted, OneOwner;
      OneOwnerHere();
      Registering(env, start, Value(), id, p, done, cid);
      AddCidRoute(id, cid);
    }

    /** Registers the ids of a handshake on a shared path, in any order. */
    method AddCidRoutes(id: nat, p: Pending)
      requires Valid() && id in connections && Refusal(env, Value(), p, Some(id)).None?
      modifies this, cidRoutes
      ensures Valid()
      ensures Value() == old(Value()).(connections :=
                old(connections)[id := WithCids(old(connections)[id], Registrable(old(Value()), p))])
    {
      hide Valid, Refusal, WithWanted, OneOwner, Registrable, Pending.Requested;
      ghost var start := Value();
      OneOwnerHere();
      NothingWanted(start, id);
      AddEach(start, id, p);
      AllWanted(start, id, p);
    }

    method AddEach(ghost start: Table, id: nat, p: Pending)
      requires Valid() && id in start.connections && Refusal(env, start, p, Some(id)).None?
      requires OneOwner(start.connections) && Value() == WithWanted(start, id, {})
      modifies this, cidRoutes
      ensures Valid() && Value() == WithWanted(start, id, p.clientCids + {p.initialDcid})
    {
      hide Valid, Refusal, WithWanted, OneOwner, Pending.Requested;
      var all := p.clientCids + {p.initialDcid};
      var rest := all;
      assert all - rest == {};
      while rest != {}
        invariant rest <= all && Valid()
        invariant Value() == WithWanted(start, id, all - rest)
        decreases |rest|
      {
        var cid :| cid in rest;
        AddRequested(start, id, p, all - rest, cid);
        TakeOne(all, rest, cid);
        rest := rest - {cid};
      }
      assert all - rest == all;
    }

    /** Adds a handshake to a path that shares its client and backend. */
    method JoinPath(id: nat, p: Pending, route: Route, io: Io) returns (ok: bool)
      requires Valid() && id in connections && Refusal(env, Value(), p, Some(id)).None?
      modifies this, cidRoutes
      ensures Valid()
      ensures Out(Value(), ok) == Join(env, old(Value()), id, p, route, io)
    {
      hide Valid, Refusal, OwnerOf, QuicLb.Lookup, Registrable, Connection.Expired, Log;
      ghost var start := Value();
      OneOwnerHere();
      var c := connections[id];
      if c.Expired(io.t2, env.idleTimeout) {
        Drop(Expired, |p.datagrams|);
        return true;
      }
      var deadline := MinTimeout(c.deadline, AddTimeout(io.t2, route.timeout));
      var c1 := c.(deadline := deadline);
      Touch(id, c1);
      ok := Flush(id, c, p.datagrams, io);
      if !ok {
        return false;
      }
      var c2 := c1.(lastSeen := io.t2);
      Touch(id, c2);
      ghost var mid := Value();
      SameRefusal(env, start, mid, p, id);
      SameRegistrable(start, mid, p);
      AddCidRoutes(id, p);
      assert connections == start.connections[id := WithCids(c2, Registrable(start, p))];
      return true;
    }

    /** Enters a new connection into the table and into every index. */
    method RegisterPath(id: nat, c: Connection, isShared: bool)
      requires Indexed() && id !in connections
      requires [] !in c.cids && (forall cid <- c.cids :: cid !in cidRoutes.owners)
      requires isShared ==> c.PathKey() !in lbPaths
      modifies this`connections, this`lbPaths, this`clientRoutes, this`shared, cidRoutes
      ensures Indexed()
      ensures connections == old(connections)[id := c]
      ensures shared == if isShared then old(shared) + {id} else old(shared)
    {
      hide CidsExact, ClientsExact, PathsExact, Connection.PathKey, Connection.Client;
      ghost var owners := cidRoutes.owners;
      AddPaths(lbPaths, connections, shared, id, c, isShared);
      AddClients(clientRoutes, connections, id, c);
      InsertCids(c.cids, id);
      GiveCids(owners, cidRoutes.owners, connections, id, c, c.cids);
      connections := connections[id := c];
      if isShared {
        lbPaths := lbPaths[c.PathKey() := id];
        shared := shared + {id};
      }
      clientRoutes := clientRoutes[c.Client() :=
        (if c.Client() in clientRoutes then clientRoutes[c.Client()] else {}) + {id}];
    }

    /** Makes a connection of its own for a handshake, with a new id and a new upstream socket. */
    method CreatePath(p: Pending, addr: SocketAddr, route: Route, io: Io) returns (ok: bool)
      requires Valid()
      requires Refusal(env, Value(), p, None).None? && Existing(Value(), Normalize(p.clientAddr), addr).None?
      modifies this, cidRoutes
      ensures Valid()
      ensures Out(Value(), ok) == Create(env, old(Value()), p, addr, route, io)
    {
      hide TableOk, CidsExact, ClientsExact, PathsExact, Refusal, OwnerOf, Normalize,
        QuicLb.IsServer, Pending.Requested, SharedPath, Log, Existing, Connection.PathKey, Connection.Client, PendingBytes;
      ghost var start := Value();
      CreateKeeps(env, start, p, addr, route, io);
      HeldIds();
      var isShared := QuicLb.IsServer(config.quicLb, Normalize(addr));
      var backend := if isShared then Normalize(addr) else addr;
      var id := nextId;
      nextId := nextId + 1;
      if !io.connects {
        assert PendingBytes(Value()) == PendingBytes(start) by {
          SamePending(start, Value());
        }
        return false;
      }
      var c := Connection(backend, p.clientAddr, p.initialDcid, p.Requested(), io.t2, io.t2, AddTimeout(io.t2, route.timeout));
      NewCidsFree(env, start, p, cidRoutes.owners);
      NewPathFree(start, p, addr, c, isShared, lbPaths);
      ok := OpenPath(id, c, isShared, p.datagrams, io);
      SamePending(start, Value());
    }

    /** Registers a path and flushes the datagrams on it. */
    method OpenPath(id: nat, c: Connection, isShared: bool, datagrams: seq<seq<byte>>, io: Io) returns (ok: bool)
      requires Indexed() && id !in connections
      requires [] !in c.cids && (forall cid <- c.cids :: cid !in cidRoutes.owners)
      requires isShared ==> c.PathKey() !in lbPaths
      modifies this`connections, this`lbPaths, this`clientRoutes, this`shared, this`toBackend, cidRoutes
      ensures Indexed()
      ensures var n := SentCount(io.sends, |datagrams|);
              ok == (n == |datagrams|) &&
              Value() == old(Value()).(connections := old(connections)[id := c],
                                       shared := if isShared then old(shared) + {id} else old(shared),
                                       toBackend := old(toBackend) + Log(id, c, datagrams[..n]))
    {
      hide CidsExact, ClientsExact, PathsExact, Connection.PathKey, Connection.Client, Log;
      RegisterPath(id, c, isShared);
      ok := FlushDatagrams(id, c, datagrams, io);
    }

    lemma HeldIds()
      requires Valid()
      ensures forall id <- connections :: id < nextId
    {
      IdsBelow(env, nextId, connections);
    }

    /** Enters each of the ids into the index. */
    method InsertCids(cids: set<Cid>, id: nat)
      requires cidRoutes.Valid() && [] !in cids && forall cid <- cids :: cid !in cidRoutes.owners
      modifies cidRoutes
      ensures cidRoutes.Valid() && Given(old(cidRoutes.owners), cidRoutes.owners, cids, id)
    {
      var rest := cids;
      while rest != {}
        invariant rest <= cids && cidRoutes.Valid()
        invariant Given(old(cidRoutes.owners), cidRoutes.owners, cids - rest, id)
        decreases |rest|
      {
        var cid :| cid in rest;
        var _ := cidRoutes.Insert(cid, id);
        rest := rest - {cid};
      }
      assert cids - {} == cids;
    }

    /** The loop of sends, which leaves the tables alone. */
    method FlushDatagrams(id: nat, c: Connection, datagrams: seq<seq<byte>>, io: Io) returns (ok: bool)
      modifies this`toBackend
      ensures var n := SentCount(io.sends, |datagrams|);
              ok == (n == |datagrams|) && toBackend == old(toBackend) + Log(id, c, datagrams[..n])
    {
      hide Log, Connection.Client;
      LogNone(id, c, datagrams);
      for k := 0 to |datagrams|
        invariant forall i | 0 <= i < k :: io.sends(i)
        invariant toBackend == old(toBackend) + Log(id, c, datagrams[..k])
      {
        if !io.sends(k) {
          return false;
        }
        LogMore(id, c, datagrams, k);
        toBackend := toBackend + [Forwarded(id, c.backend, c.Client(), datagrams[k])];
      }
      return true;
    }

    method EstablishAndFlush(p: Pending, route: Route, io: Io) returns (ok: bool)
      requires Valid()
      modifies this, cidRoutes
      ensures Valid()
      ensures Out(Value(), ok) == Establish(env, old(Value()), p, route, io)
    {
      hide TableOk, CidsExact, ClientsExact, PathsExact, Refusal, Join, Create, OwnerOf, Normalize,
        QuicLb.IsServer, SharedPath, PendingBytes;
      if route.backend.Null? {
        Drop(NullBackend, |p.datagrams|);
        return true;
      }
      var addr := route.backend.addr;
      var pathKey := (Normalize(p.clientAddr), Normalize(addr));
      PathLookup(lbPaths, connections, shared, pathKey);
      var existing := if QuicLb.IsServer(config.quicLb, pathKey.1) && pathKey in lbPaths then Some(lbPaths[pathKey]) else None;
      hide Valid;
      var refusal := CheckRegistration(p, existing);
      if refusal.Some? {
        if refusal.value == CidLimit {
          CountCidLimit();
        }
        Drop(refusal.value, |p.datagrams|);
        return true;
      }
      if existing.Some? {
        ok := JoinPath(existing.value, p, route, io);
        return;
      }
      ok := CreatePath(p, addr, route, io);
    }

    method CountCidLimit()
      requires Valid()
      modifies this`cidLimited
      ensures Valid() && Value() == old(Value()).(cidLimited := old(cidLimited) + 1)
    {
      hide ConnectionsOk, SharedOk, PendingsOk, CidsExact, ClientsExact, PathsExact;
      cidLimited := cidLimited + 1;
    }

    // ----- pending handshakes

    method RemovePending(key: PendingKey)
      requires key in pending && pendingBytes == Total(Sizes(pending))
      modifies this`pending, this`pendingBytes
      ensures pending == old(pending) - {key} && pendingBytes == Total(Sizes(pending))
    {
      hide Total, Sizes;
      SizesRemove(pending, key);
      pendingBytes := pendingBytes - pending[key].bufferedBytes;
      pending := pending - {key};
    }

    method InsertFrames(start: R.State, chunks: seq<Chunk>) returns (r: Result<R.State, R.InsertError>)
      ensures r == R.InsertAll(start, chunks)
    {
      hide R.Insert;
      var crypto := start;
      assert chunks[0..] == chunks;
      for i := 0 to |chunks|
        invariant R.InsertAll(start, chunks) == R.InsertAll(crypto, chunks[i..])
      {
        assert chunks[i..][1..] == chunks[i + 1..];
        var next := R.Insert(crypto, chunks[i]);
        if next.Failure? {
          return Failure(next.error);
        }
        crypto := next.value;
      }
      r := Success(crypto);
    }

    /** Adds a datagram to the handshake at the key: buffer first, so that a rejected one changes no more. */
    method AbsorbPending(key: PendingKey, packet: seq<byte>, scid: Cid, chunks: seq<Chunk>, now: nat)
      returns (r: Progress)
      requires key in pending && pendingBytes == Total(Sizes(pending))
      modifies this`pending, this`pendingBytes
      ensures r == Absorb(old(pending)[key], packet, scid, chunks, now)
      ensures key in pending && pending == old(pending)[key := pending[key]]
      ensures pendingBytes == Total(Sizes(pending))
      ensures !r.Rejected? ==> pending[key] == r.p
      ensures Push(old(pending)[key], packet).None? ==> r.Rejected? && pending == old(pending)
      ensures Push(old(pending)[key], packet).Some? ==> pending[key].datagrams == old(pending)[key].datagrams + [packet]
    {
      hide Total, Sizes, R.InsertAll, R.ClientHello, Hello.Sni;
      var p := pending[key];
      SizesRemove(pending, key);
      assert pending[key := p] == pending;
      var pushed := Push(p, packet);
      if pushed.None? {
        return Rejected(PendingHandshakeLimit);
      }
      p := pushed.value.(lastSeen := now, clientCids := if scid == [] then p.clientCids else p.clientCids + {scid});
      SizesUpdate(pending, key, p);
      pending := pending[key := p];
      pendingBytes := pendingBytes + |packet|;
      var inserted := InsertFrames(p.crypto, chunks);
      if inserted.Failure? {
        return Rejected(CryptoFragmentLimit);
      }
      p := p.(crypto := inserted.value);
      SizesUpdate(pending, key, p);
      SizesRemove(pending, key);
      assert old(pending)[key := pending[key]][key := p] == old(pending)[key := p];
      pending := pending[key := p];
      var hello := R.ClientHello(p.crypto.bytes);
      if hello.Failure? {
        return Rejected(InvalidInitial);
      }
      if hello.value.None? {
        return Waiting(p);
      }
      var sni := Hello.ExtractTlsSni(hello.value.value);
      return Complete(p, match sni case Success(name) => name case Failure(_) => None);
    }

    /** Buffers a datagram with its handshake, and takes the handshake out unless it must wait for more. */
    method ProgressPending(key: PendingKey, peer: SocketAddr, packet: seq<byte>, scid: Cid, chunks: seq<Chunk>, now: nat)
      returns (r: Progress)
      requires pendingBytes == Total(Sizes(pending))
      modifies this`pending, this`pendingBytes
      ensures r == Absorb(if key in old(pending) then old(pending)[key] else NewPending(peer, key.1, now), packet, scid, chunks, now)
      ensures pending == if r.Waiting? then old(pending)[key := r.p] else old(pending) - {key}
      ensures pendingBytes == Total(Sizes(pending))
    {
      hide Total, Sizes, Absorb;
      ghost var start := pending;
      var p := if key in pending then pending[key] else NewPending(peer, key.1, now);
      EnterKeepsTotal(pending, key, p);
      pending := pending[key := p];
      r := AbsorbPending(key, packet, scid, chunks, now);
      assert pending == start[key := pending[key]];
      assert pending - {key} == start - {key};
      if !r.Waiting? {
        RemovePending(key);
      }
    }

    method HandleInitial(peer: SocketAddr, packet: seq<byte>, d: P.Decrypted, chunks: seq<Chunk>, io: Io)
      returns (ok: bool)
      requires Valid() && PacketChunks(env.primitives, packet) == Some((chunks, d.scid))
      modifies this, cidRoutes
      ensures Valid()
      ensures Out(Value(), ok) ==
              Meet(env, old(Value()), peer, packet, io, HandshakeFate(env, old(Value()), peer, packet, d, chunks, io.t1))
    {
      hide TableOk, CidsExact, ClientsExact, PathsExact, Absorb, Normalize, ProgressFate, Establish, ForwardClient, PacketChunks,
        NewPending, Table.Drop;
      var key := (Normalize(peer), d.dcid);
      if key !in pending && |pending| >= env.limits.maxPendingHandshakes {
        Drop(PendingHandshakeLimit, 1);
        return true;
      }
      if pendingBytes + |packet| > env.limits.maxPendingBytes {
        Drop(PendingBytesLimit, 1);
        return true;
      }
      ok := CollectInitial(key, peer, packet, d, chunks, io);
    }

    /** Adds the datagram to its handshake, and goes by what that comes to. */
    method CollectInitial(key: PendingKey, peer: SocketAddr, packet: seq<byte>, d: P.Decrypted, chunks: seq<Chunk>, io: Io)
      returns (ok: bool)
      requires Valid() && PacketChunks(env.primitives, packet) == Some((chunks, d.scid)) && key == (Normalize(peer), d.dcid)
      requires key in pending || |pending| < env.limits.maxPendingHandshakes
      requires pendingBytes + |packet| <= env.limits.maxPendingBytes
      modifies this, cidRoutes
      ensures Valid()
      ensures var p := PendingAt(old(Value()), peer, d.dcid, io.t1);
              Out(Value(), ok) ==
              Meet(env, old(Value()), peer, packet, io,
                   ProgressFate(old(config), peer, key, |p.datagrams|, Absorb(p, packet, d.scid, chunks, io.t1)))
    {
      hide TableOk, CidsExact, ClientsExact, PathsExact, Absorb, Total, Sizes, Normalize, RouteForSni, Meet, PacketChunks,
        NewPending;
      ghost var start := Value();
      WaitingIsOk(env, start, peer, packet, d, chunks, io.t1);
      RemovePendingKeeps(env, start, key);
      NewIsEmpty(peer, d.dcid, io.t1);
      var bufferedCount := if key in pending then |pending[key].datagrams| else 0;
      var progress := ProgressPending(key, peer, packet, d.scid, chunks, io.t1);
      if progress.Waiting? {
        MeetsWaiting(env, start, peer, packet, io, key, progress.p);
        return true;
      }
      MeetsSpent(env, start, peer, packet, io, key, progress, bufferedCount + 1);
      assert Valid() && Value() == WithoutPending(start, key);
      hide Valid;
      ok := EndPending(peer, packet, progress, bufferedCount + 1, io);
    }

    /** A handshake that is out of the table is rejected, or routed and registered. */
    method EndPending(peer: SocketAddr, packet: seq<byte>, progress: Progress, count: nat, io: Io) returns (ok: bool)
      requires Valid() && !progress.Waiting?
      modifies this, cidRoutes
      ensures Valid()
      ensures Out(Value(), ok) ==
              Meet(env, old(Value()), peer, packet, io,
                   if progress.Rejected? then Dropped(None, progress.reason, count)
                   else Arrives(None, progress.p, RouteForSni(old(config), peer, progress.sni)))
    {
      hide Valid, RouteForSni, Establish, ForwardClient;
      if progress.Rejected? {
        Drop(progress.reason, count);
        return true;
      }
      var route := RouteForSni(config, peer, progress.sni);
      if route.Failure? {
        return false;
      }
      ok := EstablishAndFlush(progress.p, route.value, io);
    }

    // ----- the steps

    method HandleUnroutedClientDatagram(peer: SocketAddr, packet: seq<byte>, long: Option<L.Cids>, io: Io)
      returns (ok: bool)
      requires Valid()
      modifies this, cidRoutes
      ensures Valid()
      ensures Out(Value(), ok) ==
              Meet(env, old(Value()), peer, packet, io, UnroutedFate(env, old(Value()), peer, packet, long, io.t1))
    {
      hide Valid, AffinityFate, HandshakeFate, WithoutPending, ForwardClient, Establish, P.Decrypt, Crypto;
      if long.None? {
        ok := ForwardByPeerAffinity(peer, packet, None, false, io);
        return;
      }
      var l := long.value;
      if l.version == L.VERSION_1 && l.packetType in {L.TYPE_HANDSHAKE, L.TYPE_ZERO_RTT} {
        ok := ForwardByPeerAffinity(peer, packet, long, false, io);
        return;
      }
      if l.version != L.VERSION_1 || l.packetType != L.TYPE_INITIAL {
        Drop(UnsupportedPacket, 1);
        return true;
      }
      var decrypted := P.DecryptInitial(env.primitives, packet, None);
      if decrypted.Failure? {
        ok := ForwardByPeerAffinity(peer, packet, long, true, io);
        return;
      }
      var frames := ReadCryptoFrames(decrypted.value.payload);
      if frames.Failure? {
        Drop(InvalidFrames, 1);
        return true;
      }
      ok := HandleInitial(peer, packet, decrypted.value, frames.value, io);
    }

    /** A datagram whose id decodes to a backend. */
    method HandleLbDatagram(peer: SocketAddr, packet: seq<byte>, addr: SocketAddr, io: Io) returns (ok: bool)
      requires Valid()
      modifies this, cidRoutes
      ensures Valid()
      ensures Out(Value(), ok) ==
              Meet(env, old(Value()), peer, packet, io, LbFate(env, old(Value()), peer, packet, addr, io.t1))
    {
      hide TableOk, CidsExact, ClientsExact, PathsExact, Establish, ForwardClient, SharedPath, Connection.Expired, PendingBytes;
      var pathKey := (Normalize(peer), addr);
      PathLookup(lbPaths, connections, shared, pathKey);
      hide Valid, Normalize;
      if pathKey in lbPaths {
        var id := lbPaths[pathKey];
        if connections[id].Expired(io.t1, env.idleTimeout) {
          Drop(Expired, 1);
          return true;
        }
        ok := ForwardEstablishedClientDatagram(id, peer, packet, [], io.t2, io.sends(0));
        return;
      }
      var p := Push(NewPending(peer, [], io.t1), packet);
      if p.None? {
        return false;
      }
      ok := EstablishAndFlush(p.value, Route(Udp(addr), config.maxLifetime), io);
    }

    method HandleDatagram(peer: SocketAddr, packet: seq<byte>, io: Io) returns (ok: bool)
      requires Valid()
      modifies this, cidRoutes
      ensures Valid()
      ensures Out(Value(), ok) == ClientStep(env, old(Value()), peer, packet, io)
    {
      hide Valid, PacketConnection, LbBackend, LbFate, UnroutedFate, ForwardClient, Establish;
      if packet == [] {
        Drop(Malformed, 1);
        return true;
      }
      var route := PacketConnectionId(packet);
      if route.Failure? {
        Drop(Malformed, 1);
        return true;
      }
      var (long, connId) := route.value;
      var addr := LbBackend(config, packet, long);
      if addr.Some? {
        ok := HandleLbDatagram(peer, packet, addr.value, io);
        return;
      }
      if connId.None? {
        ok := HandleUnroutedClientDatagram(peer, packet, long, io);
        return;
      }
      // The program returns here, counting nothing, when the table lacks the id: an exact index never leads there.
      var conn := connections[connId.value];
      if Normalize(peer) == Normalize(conn.clientAddr) {
        ok := ForwardEstablishedClientDatagram(connId.value, peer, packet, SourceId(long), io.t2, io.sends(0));
      } else {
        Drop(UnexpectedPeer, 1);
        ok := true;
      }
    }

    // ----- cleanup

    /** Takes the ids out of the index where they belong to the connection. */
    method RemoveCidRoutes(cids: set<Cid>, id: nat)
      requires cidRoutes.Valid() && forall cid <- cids :: cid in cidRoutes.owners && cidRoutes.owners[cid] == id
      modifies cidRoutes
      ensures cidRoutes.Valid() && cidRoutes.owners == old(cidRoutes.owners) - cids
    {
      var rest := cids;
      ghost var owners := cidRoutes.owners;
      assert owners - (cids - rest) == owners;
      while rest != {}
        invariant rest <= cids && cidRoutes.Valid()
        invariant cidRoutes.owners == owners - (cids - rest)
        decreases |rest|
      {
        var cid :| cid in rest;
        var owner := cidRoutes.Get(cid);
        if owner == Some(id) {
          var _ := cidRoutes.Remove(cid);
        }
        assert owners - (cids - rest) - {cid} == owners - (cids - (rest - {cid}));
        rest := rest - {cid};
      }
      assert cids - {} == cids;
    }

    method ForgetConnection(id: nat)
      requires cidRoutes.Valid() && id in connections
      requires CidsExact(cidRoutes.owners, connections) && ClientsExact(clientRoutes, connections)
      modifies this`connections, this`clientRoutes, cidRoutes
      ensures cidRoutes.Valid() && connections == old(connections) - {id}
      ensures CidsExact(cidRoutes.owners, connections) && ClientsExact(clientRoutes, connections)
    {
      hide CidsExact, ClientsExact, Connection.Client, C.Holds;
      ghost var conns := connections;
      ghost var owners := cidRoutes.owners;
      var conn := connections[id];
      connections := connections - {id};
      CidsOwned(owners, conns, id);
      RemoveCidRoutes(conn.cids, id);
      RemoveCids(owners, cidRoutes.owners, conns, id);
      RemoveClients(clientRoutes, conns, id);
      var client := conn.Client();
      if client in clientRoutes {
        var ids := clientRoutes[client] - {id};
        if ids == {} {
          clientRoutes := clientRoutes - {client};
        } else {
          clientRoutes := clientRoutes[client := ids];
        }
      }
    }

    method ForgetExpired(now: nat)
      requires Valid()
      modifies this`connections, this`clientRoutes, this`lbPaths, this`shared, cidRoutes
      ensures Indexed()
      ensures connections == old(connections) - ExpiredIds(env, old(Value()), now)
      ensures shared == old(shared) - ExpiredIds(env, old(Value()), now)
    {
      hide TableOk, CidsExact, ClientsExact, PathsExact, Connection.Expired, PendingBytes, C.Holds;
      ghost var conns := connections;
      var expired := set id | id in connections && connections[id].Expired(now, env.idleTimeout);
      assert expired == ExpiredIds(env, Value(), now);
      var rest := expired;
      assert connections == conns - (expired - rest);
      while rest != {}
        invariant rest <= expired && cidRoutes.Valid()
        invariant connections == conns - (expired - rest) && lbPaths == old(lbPaths) && shared == old(shared)
        invariant CidsExact(cidRoutes.owners, connections) && ClientsExact(clientRoutes, connections)
        decreases |rest|
      {
        var id :| id in rest;
        ForgetConnection(id);
        assert conns - (expired - rest) - {id} == conns - (expired - (rest - {id}));
        rest := rest - {id};
      }
      assert expired - {} == expired;
      RetainPaths(lbPaths, conns, shared, expired);
      lbPaths := map k | k in lbPaths && lbPaths[k] in connections :: lbPaths[k];
      shared := shared - expired;
    }

    method DropStalePending(now: nat)
      requires pendingBytes == Total(Sizes(pending))
      modifies this`pending, this`pendingBytes, this`dropped
      ensures pendingBytes == Total(Sizes(pending))
      ensures var stale := StaleKeys(env, old(Value()), now);
              pending == old(pending) - stale &&
              dropped == old(Value()).Drop(PendingTimeout, Total(map k | k in Counts(old(pending)) && k in stale :: Counts(old(pending))[k])).dropped
    {
      hide Total, Sizes, Counts, Stale;
      ghost var start := pending;
      ghost var drops := dropped;
      var stale := set k | k in pending && Stale(env, config, pending[k], now);
      assert stale == StaleKeys(env, Value(), now);
      var rest := stale;
      ghost var count: nat := 0;
      assert start - (stale - rest) == start;
      while rest != {}
        invariant rest <= stale && pending == start - (stale - rest) && pendingBytes == Total(Sizes(pending))
        invariant Total(Counts(pending)) + count == Total(Counts(start))
        invariant dropped == drops[PendingTimeout := drops[PendingTimeout] + count]
        decreases |rest|
      {
        var k :| k in rest;
        var n := |pending[k].datagrams|;
        SizesRemove(pending, k);
        RemovePending(k);
        assert start - (stale - rest) - {k} == start - (stale - (rest - {k}));
        dropped := dropped[PendingTimeout := dropped[PendingTimeout] + n];
        count := count + n;
        rest := rest - {k};
      }
      assert stale - {} == stale;
      CountsSplit(start, stale);
    }

    /** Neither the table nor an index knows the connection. */
    ghost predicate Forgotten(id: nat)
      reads this, cidRoutes
    {
      id !in connections && id !in cidRoutes.owners.Values && id !in lbPaths.Values &&
      forall a <- clientRoutes :: id !in clientRoutes[a]
    }

    lemma GoneIsForgotten(id: nat)
      requires Valid() && id !in connections
      ensures Forgotten(id)
    {
      hide TableOk, CidsExact, ClientsExact, PathsExact;
      GoneIsUnindexed(cidRoutes.owners, clientRoutes, lbPaths, connections, shared, id);
    }

    lemma ExpiredAreForgotten(start: Table, now: nat)
      requires Valid() && Value() == CleanupStep(env, start, now)
      ensures forall id <- start.connections :: start.connections[id].Expired(now, env.idleTimeout) ==> Forgotten(id)
    {
      hide Valid, Forgotten, Connection.Expired, Stale, Total, Counts;
      forall id | id in start.connections && start.connections[id].Expired(now, env.idleTimeout) ensures Forgotten(id) {
        GoneIsForgotten(id);
      }
    }

    method CleanUp(now: nat)
      requires Valid()
      modifies this, cidRoutes
      ensures Valid() && Value() == CleanupStep(env, old(Value()), now)
      ensures forall id <- old(connections) :: old(connections)[id].Expired(now, env.idleTimeout) ==> Forgotten(id)
    {
      hide CidsExact, ClientsExact, PathsExact, Connection.Expired, StaleKeys, ExpiredIds, Total, Counts, Sizes, TableOk, Forgotten;
      ghost var start := Value();
      CleanupKeeps(env, start, now);
      ForgetExpired(now);
      SameStale(env, start, Value(), now);
      DropStalePending(now);
      ExpiredAreForgotten(start, now);
    }

    // ----- the main loop

    method Handle(e: Event) returns (ok: bool)
      requires Valid()
      modifies this, cidRoutes
      ensures Valid()
      ensures Out(Value(), ok) == Step(env, old(Value()), e)
    {
      hide Valid, ClientStep, BackendStep, CleanupStep;
      ok := true;
      match e {
        case ClientDatagram(peer, packet, io) => ok := HandleDatagram(peer, packet, io);
        case BackendDatagram(id, packet, now, sendOk) => ok := HandleBackendDatagram(id, packet, now, sendOk);
        case Reload(config) => SetConfig(config);
        case Cleanup(now) => CleanUp(now);
      }
    }

    /** After any sequence of events the router's table is that of the scanning router, and its indexes are exact. */
    method MainLoop(events: seq<Event>)
      requires Valid()
      modifies this, cidRoutes
      ensures Valid()
      ensures Value() == Run(env, old(Value()), events)
    {
      hide Valid, Step;
      ghost var start := Value();
      assert events[0..] == events;
      for i := 0 to |events|
        invariant Valid()
        invariant Run(env, start, events) == Run(env, Value(), events[i..])
      {
        assert events[i..][1..] == events[i + 1..];
        var _ := Handle(events[i]);
      }
    }
  }

  lemma ShortHeader(packet: seq<byte>)
    requires L.Parse(packet) == Success(None) && packet != []
    ensures packet[0] < 0x80
  {
  }

  lemma NotMine(owners: map<Cid, nat>, conns: Connections, id: nat, cid: Cid)
    requires CidsExact(owners, conns) && id in conns && cid !in conns[id].cids
    ensures cid in owners ==> owners[cid] != id
  {
  }

  lemma GiveOne(owners: map<Cid, nat>, after: map<Cid, nat>, conns: Connections, id: nat, cid: Cid)
    requires CidsExact(owners, conns) && id in conns && cid !in owners && after == owners[cid := id]
    ensures CidsExact(after, conns[id := WithCids(conns[id], {cid})])
  {
    hide CidsExact;
    GiveCids(owners, after, conns, id, WithCids(conns[id], {cid}), {cid});
  }

  lemma TouchLearned(routes: map<SocketAddr, set<nat>>, paths: map<PathKey, nat>, conns: Connections, shared: set<nat>,
                     id: nat, c: Connection)
    requires ClientsExact(routes, conns) && PathsExact(paths, conns, shared) && id in conns
    requires c.clientAddr == conns[id].clientAddr && c.backend == conns[id].backend
    ensures ClientsExact(routes, conns[id := c]) && PathsExact(paths, conns[id := c], shared)
  {
    hide ClientsExact, PathsExact;
    TouchClients(routes, conns, id, c);
    TouchPaths(paths, conns, shared, id, c);
  }

  lemma LogMore(id: nat, c: Connection, datagrams: seq<seq<byte>>, k: nat)
    requires k < |datagrams|
    ensures Log(id, c, datagrams[..k + 1]) == Log(id, c, datagrams[..k]) + [Forwarded(id, c.backend, c.Client(), datagrams[k])]
  {
    hide Connection.Client;
  }

  /** Overwriting a connection, but for its ids, changes no refusal. */
  lemma SameRefusal(env: Env, t: Table, t': Table, p: Pending, id: nat)
    requires id in t.connections && id in t'.connections
    requires t'.connections == t.connections[id := t'.connections[id]]
    requires t'.connections[id].cids == t.connections[id].cids && t'.nextId == t.nextId
    requires OneOwner(t.connections) && Refusal(env, t, p, Some(id)).None?
    ensures Refusal(env, t', p, Some(id)).None?
  {
    hide OwnerOf, Pending.Requested;
    forall cid ensures OwnerOf(t'.connections, cid) == OwnerOf(t.connections, cid) {
      SameOwner(t.connections, t'.connections, cid);
    }
  }

  lemma SameOwner(conns: Connections, conns': Connections, cid: Cid)
    requires OneOwner(conns) && conns'.Keys == conns.Keys && forall id <- conns :: conns'[id].cids == conns[id].cids
    ensures OwnerOf(conns', cid) == OwnerOf(conns, cid)
  {
    forall i ensures Owns(conns', i, cid) <==> Owns(conns, i, cid) {
    }
    if OwnerOf(conns, cid).Some? && OwnerOf(conns', cid).Some? {
      assert Owns(conns, OwnerOf(conns', cid).value, cid);
    }
  }

  lemma SameRegistrable(t: Table, t': Table, p: Pending)
    requires t'.config == t.config
    ensures Registrable(t', p) == Registrable(t, p)
  {
  }

  /** A path that has learned what it wants of some ids. */
  ghost function WithWanted(t: Table, id: nat, cids: set<Cid>): Table
    requires id in t.connections
  {
    t.(connections := t.connections[id := WithCids(t.connections[id], Wanted(t, cids))])
  }

  lemma NothingWanted(t: Table, id: nat)
    requires id in t.connections
    ensures WithWanted(t, id, {}) == t
  {
    assert Wanted(t, {}) == {};
    assert WithCids(t.connections[id], {}) == t.connections[id];
    assert t.connections == t.connections[id := t.connections[id]];
  }

  lemma AllWanted(t: Table, id: nat, p: Pending)
    requires id in t.connections
    ensures WithWanted(t, id, p.clientCids + {p.initialDcid}) ==
            t.(connections := t.connections[id := WithCids(t.connections[id], Registrable(t, p))])
  {
    WantedOfAll(t, p);
  }

  /** One turn of registering a handshake's ids: the prechecks see to it that the id is learned if wanted. */
  lemma Registering(env: Env, start: Table, t: Table, id: nat, p: Pending, seen: set<Cid>, cid: Cid)
    requires id in start.connections && Refusal(env, start, p, Some(id)).None?
    requires OneOwner(start.connections) && OneOwner(t.connections)
    requires t == WithWanted(start, id, seen)
    requires seen <= p.clientCids + {p.initialDcid} && cid in p.clientCids + {p.initialDcid}
    ensures Learn(env, t, id, cid) == WithWanted(start, id, seen + {cid})
    ensures id in WithWanted(start, id, seen + {cid}).connections
  {
    hide OwnerOf, QuicLb.Lookup, Learn, Refusal, OneOwner;
    RegistrableIsFree(env, start, p, Some(id));
    var c := start.connections[id];
    assert Wanted(start, seen) <= p.Requested();
    if cid != [] {
      OwnerWhileRegistering(start.connections, t.connections, id, cid, p);
      var now := t.connections[id].cids + {cid};
      assert now <= c.cids + p.Requested();
      SubsetSize(now, c.cids + p.Requested());
    }
    LearnChecked(env, t, id, cid);
    WantedGrows(start, seen, cid);
    assert Wanted(t, {cid}) == Wanted(start, {cid});
    assert WithCids(t.connections[id], Wanted(t, {cid})) == WithCids(c, Wanted(start, seen + {cid}));
    assert t.connections[id := WithCids(c, Wanted(start, seen + {cid}))] ==
           start.connections[id := WithCids(c, Wanted(start, seen + {cid}))];
  }

  lemma OwnerWhileRegistering(conns: Connections, conns': Connections, id: nat, cid: Cid, p: Pending)
    requires id in conns && id in conns' && conns' == conns[id := conns'[id]]
    requires OwnerOf(conns, cid).None? || OwnerOf(conns, cid) == Some(id)
    requires OneOwner(conns) && OneOwner(conns')
    ensures OwnerOf(conns', cid).None? || OwnerOf(conns', cid) == Some(id)
  {
    var owner := OwnerOf(conns', cid);
    assert owner.Some? ==> owner.value == id || Owns(conns, owner.value, cid);
  }

  lemma LogNone(id: nat, c: Connection, datagrams: seq<seq<byte>>)
    ensures Log(id, c, datagrams[..0]) == []
  {
  }

  /** A handshake that was not refused asks only for ids that nobody owns. */
  lemma NewCidsFree(env: Env, t: Table, p: Pending, owners: map<Cid, nat>)
    requires TableOk(env, t) && CidsExact(owners, t.connections) && Refusal(env, t, p, None).None?
    ensures [] !in p.Requested() && forall cid <- p.Requested() :: cid !in owners
  {
    hide CidsExact, Refusal, Pending.Requested, OwnerOf, SharedOk, PendingsOk;
    RegistrableIsFree(env, t, p, None);
    IdsBelow(env, t.nextId, t.connections);
    forall cid | cid in p.Requested() ensures cid !in owners {
      CidLookup(owners, t.connections, cid);
      OwnerIsHere(t.connections, cid);
    }
  }

  lemma NewPathFree(t: Table, p: Pending, addr: SocketAddr, c: Connection, isShared: bool, paths: map<PathKey, nat>)
    requires PathsExact(paths, t.connections, t.shared)
    requires isShared == QuicLb.IsServer(t.config.quicLb, Normalize(addr))
    requires Existing(t, Normalize(p.clientAddr), addr).None?
    requires c.clientAddr == p.clientAddr && (isShared ==> c.backend == Normalize(addr))
    ensures isShared ==> c.PathKey() !in paths
  {
    hide PathsExact, Normalize, QuicLb.IsServer;
    PathLookup(paths, t.connections, t.shared, c.PathKey());
  }

  lemma SamePending(t: Table, t': Table)
    requires t'.pending == t.pending
    ensures PendingBytes(t') == PendingBytes(t)
  {
  }

  /** Entering a handshake that buffers nothing yet, or is there already, changes no total. */
  lemma EnterKeepsTotal(pending: map<PendingKey, Pending>, key: PendingKey, p: Pending)
    requires if key in pending then p == pending[key] else p.bufferedBytes == 0
    ensures Total(Sizes(pending[key := p])) == Total(Sizes(pending))
  {
    hide Total, Sizes;
    SizesUpdate(pending, key, p);
    if key in pending {
      SizesRemove(pending, key);
    }
  }

  lemma NewIsEmpty(peer: SocketAddr, dcid: Cid, now: nat)
    ensures NewPending(peer, dcid, now).datagrams == []
  {
  }

  lemma CidsOwned(owners: map<Cid, nat>, conns: Connections, id: nat)
    requires CidsExact(owners, conns) && id in conns
    ensures forall cid <- conns[id].cids :: cid in owners && owners[cid] == id
  {
    assert forall cid <- conns[id].cids :: Owns(conns, id, cid);
  }

  lemma CountsSplit(pending: map<PendingKey, Pending>, gone: set<PendingKey>)
    ensures Total(Counts(pending)) ==
            Total(Counts(pending - gone)) + Total(map k | k in Counts(pending) && k in gone :: Counts(pending)[k])
  {
    hide Total;
    TotalSplit(Counts(pending), gone);
    assert Counts(pending - gone) == Counts(pending) - gone;
  }

  lemma TakeOne<T>(all: set<T>, rest: set<T>, x: T)
    requires rest <= all && x in rest
    ensures all - rest + {x} == all - (rest - {x}) && |rest - {x}| < |rest|
  {
  }

  lemma MeetsWaiting(env: Env, t: Table, peer: SocketAddr, packet: seq<byte>, io: Io, key: PendingKey, p: Pending)
    ensures Meet(env, t, peer, packet, io, Waits(key, p)) == Out(t.(pending := t.pending[key := p]), true)
  {
  }

  /** A handshake that is over is met in the table without it. */
  lemma MeetsSpent(env: Env, t: Table, peer: SocketAddr, packet: seq<byte>, io: Io, key: PendingKey, progress: Progress, count: nat)
    requires !progress.Waiting?
    ensures Meet(env, t, peer, packet, io,
                 if progress.Rejected? then Dropped(Some(key), progress.reason, count)
                 else Arrives(Some(key), progress.p, RouteForSni(t.config, peer, progress.sni))) ==
            Meet(env, WithoutPending(t, key), peer, packet, io,
                 if progress.Rejected? then Dropped(None, progress.reason, count)
                 else Arrives(None, progress.p, RouteForSni(t.config, peer, progress.sni)))
  {
    hide Establish, ForwardClient, RouteForSni;
  }

  lemma SameStale(env: Env, t: Table, t': Table, now: nat)
    requires t'.pending == t.pending && t'.config == t.config
    ensures StaleKeys(env, t', now) == StaleKeys(env, t, now)
  {
    hide Stale;
  }
}
