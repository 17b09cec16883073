/** What it means for the router's indexes to be exact, and how updates keep them so. */
module RouterIndexes {
  import opened Wrappers
  import opened Bytes
  import opened Addresses
  import opened RouterTable
  import C = CidRoutes
  import QuicLb

  type PathKey = (SocketAddr, SocketAddr)

  /** An id maps to a connection exactly when that connection holds it. */
  ghost predicate CidsExact(owners: map<Cid, nat>, conns: Connections) {
    (forall cid <- owners :: Owns(conns, owners[cid], cid)) &&
    (forall id, cid :: Owns(conns, id, cid) ==> cid in owners && owners[cid] == id)
  }

  /** A client address lists exactly its connections; addresses without any are not kept. */
  ghost predicate ClientsExact(routes: map<SocketAddr, set<nat>>, conns: Connections) {
    (forall a <- routes :: routes[a] != {} && forall id <- routes[a] :: id in conns && conns[id].Client() == a) &&
    (forall id <- conns :: conns[id].Client() in routes && id in routes[conns[id].Client()])
  }

  /** The paths list exactly the shared connections, each under its client and backend. */
  ghost predicate PathsExact(paths: map<PathKey, nat>, conns: Connections, shared: set<nat>) {
    (forall k <- paths :: IsPath(conns, shared, k, paths[k])) &&
    (forall id <- shared :: id in conns && conns[id].PathKey() in paths && paths[conns[id].PathKey()] == id)
  }

  // ----- exact indexes answer like a scan

  lemma CidLookup(owners: map<Cid, nat>, conns: Connections, cid: Cid)
    requires CidsExact(owners, conns)
    ensures OwnerOf(conns, cid) == if cid in owners then Some(owners[cid]) else None
  {
  }

  lemma {:induction false} PrefixLookup(owners: map<Cid, nat>, conns: Connections, bytes: seq<byte>, n: nat)
    requires CidsExact(owners, conns) && n <= |bytes|
    ensures C.LongestOwner(owners, bytes, n) == LongestOwnerOf(conns, bytes, n)
  {
    hide CidsExact, OwnerOf;
    if n > 0 {
      CidLookup(owners, conns, bytes[..n]);
      PrefixLookup(owners, conns, bytes, n - 1);
    }
  }

  lemma PathLookup(paths: map<PathKey, nat>, conns: Connections, shared: set<nat>, key: PathKey)
    requires PathsExact(paths, conns, shared)
    ensures SharedPath(conns, shared, key) == if key in paths then Some(paths[key]) else None
  {
    hide Connection.PathKey;
  }

  /** Peer affinity looks only at the client's own connections. */
  lemma PeerLookup(env: Env, routes: map<SocketAddr, set<nat>>, conns: Connections, peer: SocketAddr, now: nat)
    requires ClientsExact(routes, conns)
    ensures var a := Normalize(peer);
            forall id :: LivePeer(env, conns, a, now, id) <==>
                         a in routes && id in routes[a] && id in conns && !conns[id].Expired(now, env.idleTimeout)
  {
    hide Connection.Expired, Connection.Client, Normalize;
  }

  /** A connection that is gone from the table is in no exact index. */
  lemma GoneIsUnindexed(owners: map<Cid, nat>, routes: map<SocketAddr, set<nat>>, paths: map<PathKey, nat>,
                        conns: Connections, shared: set<nat>, id: nat)
    requires CidsExact(owners, conns) && ClientsExact(routes, conns) && PathsExact(paths, conns, shared)
    requires id !in conns
    ensures id !in owners.Values && id !in paths.Values && forall a <- routes :: id !in routes[a]
  {
    hide Connection.Client, Connection.PathKey;
  }

  // ----- a connection changes, keeping its ids and its path

  lemma TouchKeepsIndexes(owners: map<Cid, nat>, routes: map<SocketAddr, set<nat>>, paths: map<PathKey, nat>,
                          conns: Connections, shared: set<nat>, id: nat, c: Connection)
    requires CidsExact(owners, conns) && ClientsExact(routes, conns) && PathsExact(paths, conns, shared)
    requires id in conns && c.cids == conns[id].cids && c.PathKey() == conns[id].PathKey()
    ensures CidsExact(owners, conns[id := c]) && ClientsExact(routes, conns[id := c]) &&
            PathsExact(paths, conns[id := c], shared)
  {
    TouchCids(owners, conns, id, c);
    TouchClients(routes, conns, id, c);
    TouchPaths(paths, conns, shared, id, c);
  }

  lemma TouchCids(owners: map<Cid, nat>, conns: Connections, id: nat, c: Connection)
    requires CidsExact(owners, conns) && id in conns && c.cids == conns[id].cids
    ensures CidsExact(owners, conns[id := c])
  {
    var now := conns[id := c];
    forall cid | cid in owners ensures Owns(now, owners[cid], cid) {
      assert Owns(conns, owners[cid], cid);
    }
    forall i, cid | Owns(now, i, cid) ensures cid in owners && owners[cid] == i {
      assert Owns(conns, i, cid);
    }
  }

  lemma TouchClients(routes: map<SocketAddr, set<nat>>, conns: Connections, id: nat, c: Connection)
    requires ClientsExact(routes, conns) && id in conns && c.Client() == conns[id].Client()
    ensures ClientsExact(routes, conns[id := c])
  {
    hide Connection.Client;
  }

  lemma TouchPaths(paths: map<PathKey, nat>, conns: Connections, shared: set<nat>, id: nat, c: Connection)
    requires PathsExact(paths, conns, shared) && id in conns && c.PathKey() == conns[id].PathKey()
    ensures PathsExact(paths, conns[id := c], shared)
  {
    hide Connection.PathKey;
    forall k, i ensures IsPath(conns[id := c], shared, k, i) <==> IsPath(conns, shared, k, i) {
    }
  }

  // ----- ids are added to a connection

  /** The owners after a set of free ids has been given to a connection. */
  ghost predicate Given(owners: map<Cid, nat>, after: map<Cid, nat>, cids: set<Cid>, id: nat) {
    (forall cid :: cid in after <==> cid in owners || cid in cids) &&
    (forall cid <- owners :: cid !in cids ==> after[cid] == owners[cid]) &&
    (forall cid <- cids :: cid in after && after[cid] == id)
  }

  lemma GiveCids(owners: map<Cid, nat>, after: map<Cid, nat>, conns: Connections, id: nat, c: Connection, cids: set<Cid>)
    requires CidsExact(owners, conns) && Given(owners, after, cids, id)
    requires forall cid <- cids :: cid !in owners
    requires c.cids == (if id in conns then conns[id].cids else {}) + cids
    ensures CidsExact(after, conns[id := c])
  {
    var now := conns[id := c];
    forall i, cid ensures Owns(now, i, cid) <==> Owns(conns, i, cid) || (i == id && cid in cids) {
    }
  }

  // ----- a connection is added

  function AddRoute(routes: map<SocketAddr, set<nat>>, a: SocketAddr, id: nat): map<SocketAddr, set<nat>> {
    routes[a := (if a in routes then routes[a] else {}) + {id}]
  }

  lemma AddClients(routes: map<SocketAddr, set<nat>>, conns: Connections, id: nat, c: Connection)
    requires ClientsExact(routes, conns) && id !in conns
    ensures ClientsExact(AddRoute(routes, c.Client(), id), conns[id := c])
  {
    hide Connection.Client;
  }

  lemma AddPaths(paths: map<PathKey, nat>, conns: Connections, shared: set<nat>, id: nat, c: Connection, isShared: bool)
    requires PathsExact(paths, conns, shared) && id !in conns && (isShared ==> c.PathKey() !in paths)
    ensures PathsExact(if isShared then paths[c.PathKey() := id] else paths, conns[id := c],
                       if isShared then shared + {id} else shared)
  {
    hide Connection.PathKey;
    var now := conns[id := c];
    var shared' := if isShared then shared + {id} else shared;
    forall k, i | IsPath(conns, shared, k, i) ensures IsPath(now, shared', k, i) {
    }
    if isShared {
      assert IsPath(now, shared', c.PathKey(), id);
    }
  }

  // ----- connections are removed

  lemma RemoveCids(owners: map<Cid, nat>, after: map<Cid, nat>, conns: Connections, id: nat)
    requires CidsExact(owners, conns) && id in conns && after == owners - conns[id].cids
    ensures CidsExact(after, conns - {id})
  {
    forall i, cid | Owns(conns - {id}, i, cid) ensures cid in after && after[cid] == i {
      assert Owns(conns, i, cid);
      assert cid in conns[id].cids ==> Owns(conns, id, cid);
    }
    forall cid | cid in after ensures Owns(conns - {id}, after[cid], cid) {
      assert Owns(conns, owners[cid], cid);
    }
  }

  function RemoveRoute(routes: map<SocketAddr, set<nat>>, a: SocketAddr, id: nat): map<SocketAddr, set<nat>> {
    if a !in routes then routes
    else if routes[a] - {id} == {} then routes - {a}
    else routes[a := routes[a] - {id}]
  }

  lemma RemoveClients(routes: map<SocketAddr, set<nat>>, conns: Connections, id: nat)
    requires ClientsExact(routes, conns) && id in conns
    ensures ClientsExact(RemoveRoute(routes, conns[id].Client(), id), conns - {id})
  {
    hide Connection.Client;
    var a := conns[id].Client();
    var after := RemoveRoute(routes, a, id);
    forall i | i in conns - {id} ensures conns[i].Client() in after && i in after[conns[i].Client()] {
      if conns[i].Client() == a {
        assert i in routes[a] - {id};
      }
    }
  }

  lemma RetainPaths(paths: map<PathKey, nat>, conns: Connections, shared: set<nat>, gone: set<nat>)
    requires PathsExact(paths, conns, shared)
    ensures PathsExact(map k | k in paths && paths[k] in conns - gone :: paths[k], conns - gone, shared - gone)
  {
    hide Connection.PathKey;
    var after := map k | k in paths && paths[k] in conns - gone :: paths[k];
    forall k | k in after ensures IsPath(conns - gone, shared - gone, k, after[k]) {
      assert IsPath(conns, shared, k, paths[k]);
    }
  }

  // ----- learning the ids of a handshake

  /** With the owner and the budget checked beforehand, an id is always learned unless QUIC-LB decodes it. */
  lemma LearnChecked(env: Env, t: Table, id: nat, cid: Cid)
    requires id in t.connections
    requires cid != [] ==> OwnerOf(t.connections, cid).None? || OwnerOf(t.connections, cid) == Some(id)
    requires cid != [] ==> |t.connections[id].cids + {cid}| <= env.limits.maxCidsPerPath
    ensures Learn(env, t, id, cid) ==
            t.(connections := t.connections[id := WithCids(t.connections[id], Wanted(t, {cid}))])
  {
    hide OwnerOf, QuicLb.Lookup;
    var c := t.connections[id];
    if cid == [] || QuicLb.Lookup(t.config.quicLb, cid).Some? {
      assert Wanted(t, {cid}) == {};
      assert WithCids(c, {}) == c;
      assert t.connections[id := c] == t.connections;
    } else {
      assert Wanted(t, {cid}) == {cid};
      if cid in c.cids {
        assert WithCids(c, {cid}) == c;
        assert t.connections[id := c] == t.connections;
      } else {
        assert |c.cids + {cid}| == |c.cids| + 1;
        OwnerIsHere(t.connections, cid);
      }
    }
  }

  /** Of some ids, those a shared path registers. */
  ghost function Wanted(t: Table, cids: set<Cid>): set<Cid> {
    set cid | cid in cids && cid != [] && QuicLb.Lookup(t.config.quicLb, cid).None?
  }

  lemma WantedOfAll(t: Table, p: Pending)
    ensures Wanted(t, p.clientCids + {p.initialDcid}) == Registrable(t, p)
  {
    hide QuicLb.Lookup;
  }

  lemma WantedGrows(t: Table, cids: set<Cid>, cid: Cid)
    ensures Wanted(t, cids) + Wanted(t, {cid}) == Wanted(t, cids + {cid})
  {
    hide QuicLb.Lookup;
  }
}
