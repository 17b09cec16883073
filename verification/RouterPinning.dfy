/**
 A connection keeps its client and its backend for life, carries traffic only between the two, and
 does nothing more once it has expired.
 */
module RouterPinning {
  import opened Wrappers
  import opened Bytes
  import opened Addresses
  import opened Routing
  import opened Frames
  import opened RouterTable
  import opened RouterInvariant
  import opened RouterFate
  import QuicLb
  import L = LongHeader

  // ----- what one step may do to a connection

  function NotLater(a: Option<nat>, b: Option<nat>): bool {
    b.Some? ==> a.Some? && a.value <= b.value
  }

  /** The same path later on: more ids perhaps, and a deadline no later. */
  ghost predicate Continues(c: Connection, later: Connection) {
    later.PathKey() == c.PathKey() && later.created == c.created && c.cids <= later.cids &&
    NotLater(later.deadline, c.deadline)
  }

  /** Connections either continue or go; ids are never used again. */
  ghost predicate Evolves(t: Table, t': Table) {
    t.nextId <= t'.nextId &&
    (forall id <- t'.connections :: id in t.connections ==> Continues(t.connections[id], t'.connections[id])) &&
    (forall id <- t'.connections :: id in t.connections || id >= t.nextId)
  }

  ghost predicate ForwardedOn(t: Table, f: Forwarded) {
    f.id in t.connections && t.connections[f.id].PathKey() == (f.client, f.backend)
  }

  ghost predicate RepliedOn(t: Table, r: Reply) {
    r.id in t.connections && t.connections[r.id].Client() == Normalize(r.addr)
  }

  /** What a step sends travels on paths of connections that exist when it ends. */
  ghost predicate SendsOnPaths(t: Table, t': Table) {
    t.toBackend <= t'.toBackend && t.toClient <= t'.toClient &&
    (forall i | |t.toBackend| <= i < |t'.toBackend| :: ForwardedOn(t', t'.toBackend[i])) &&
    (forall i | |t.toClient| <= i < |t'.toClient| :: RepliedOn(t', t'.toClient[i]))
  }

  /** Connections the step sent on. */
  ghost predicate SentOn(t: Table, t': Table, id: nat) {
    t.toBackend <= t'.toBackend && t.toClient <= t'.toClient &&
    ((exists i :: |t.toBackend| <= i < |t'.toBackend| && t'.toBackend[i].id == id) ||
     (exists i :: |t.toClient| <= i < |t'.toClient| && t'.toClient[i].id == id))
  }

  /** Whatever changed or carried traffic was not expired at the time. */
  ghost predicate SparesExpired(env: Env, t: Table, t': Table, now: nat) {
    forall id | id in t.connections && t.connections[id].Expired(now, env.idleTimeout) ::
      !SentOn(t, t', id) && (id in t'.connections ==> t'.connections[id] == t.connections[id])
  }

  ghost predicate Good(env: Env, t: Table, t': Table, now: nat) {
    Evolves(t, t') && SendsOnPaths(t, t') && SparesExpired(env, t, t', now)
  }

  /** An expired connection stays expired: nothing but traffic would refresh it. */
  lemma ExpiredStays(c: Connection, idleTimeout: nat, now: nat, later: nat)
    requires c.Expired(now, idleTimeout) && now <= later
    ensures c.Expired(later, idleTimeout)
  {
  }

  lemma Unchanged(env: Env, t: Table, t': Table, now: nat)
    requires t'.connections == t.connections && t'.nextId >= t.nextId
    requires t'.toBackend == t.toBackend && t'.toClient == t.toClient
    ensures Good(env, t, t', now)
  {
    hide Connection.Expired, Connection.PathKey;
  }

  /** One connection replaced, after traffic on no connection but that one. */
  lemma OneChanged(env: Env, t: Table, t': Table, id: nat, c: Connection, now: nat)
    requires id in t.connections && !t.connections[id].Expired(now, env.idleTimeout)
    requires t'.connections == t.connections[id := c] && t'.nextId == t.nextId && Continues(t.connections[id], c)
    requires t.toBackend <= t'.toBackend && t.toClient <= t'.toClient
    requires forall i | |t.toBackend| <= i < |t'.toBackend| ::
               t'.toBackend[i].id == id && c.PathKey() == (t'.toBackend[i].client, t'.toBackend[i].backend)
    requires forall i | |t.toClient| <= i < |t'.toClient| ::
               t'.toClient[i].id == id && c.Client() == Normalize(t'.toClient[i].addr)
    ensures Good(env, t, t', now)
  {
    hide Connection.Expired, Connection.PathKey, Connection.Client;
  }

  lemma LearnContinues(env: Env, t: Table, id: nat, cid: Cid)
    requires id in t.connections
    ensures var t1 := Learn(env, t, id, cid);
            t1.nextId == t.nextId && t1.toBackend == t.toBackend && t1.toClient == t.toClient &&
            t1.shared == t.shared && t1.pending == t.pending &&
            id in t1.connections && t1.connections == t.connections[id := t1.connections[id]] &&
            Continues(t.connections[id], t1.connections[id])
  {
    hide OwnerOf, QuicLb.Lookup;
    assert t.connections == t.connections[id := t.connections[id]];
  }

  lemma ForwardGood(env: Env, t: Table, id: nat, peer: SocketAddr, packet: seq<byte>, scid: Cid, now: nat, sendOk: bool)
    requires id in t.connections && t.connections[id].Client() == Normalize(peer)
    ensures Good(env, t, ForwardClient(env, t, id, peer, packet, scid, now, sendOk).t, now)
  {
    hide Learn, Connection.Expired, Good;
    var c := t.connections[id];
    var out := ForwardClient(env, t, id, peer, packet, scid, now, sendOk);
    if c.Expired(now, env.idleTimeout) {
      Unchanged(env, t, out.t, now);
    } else {
      var c1 := c.(clientAddr := peer, lastSeen := now);
      var t1 := t.(connections := t.connections[id := c1]);
      var t2 := t1.(toBackend := t1.toBackend + [Forwarded(id, c.backend, Normalize(peer), packet)]);
      LearnContinues(env, t2, id, scid);
      if sendOk {
        assert out.t.connections == t.connections[id := out.t.connections[id]];
      }
      OneChanged(env, t, out.t, id, out.t.connections[id], now);
    }
  }

  lemma JoinGood(env: Env, t: Table, id: nat, p: Pending, route: Route, io: Io)
    requires id in t.connections
    ensures Good(env, t, Join(env, t, id, p, route, io).t, io.t2)
  {
    hide Connection.Expired, Good, Registrable;
    var out := Join(env, t, id, p, route, io);
    var c := t.connections[id];
    if c.Expired(io.t2, env.idleTimeout) {
      Unchanged(env, t, out.t, io.t2);
    } else {
      OneChanged(env, t, out.t, id, out.t.connections[id], io.t2);
    }
  }

  lemma CreateGood(env: Env, t: Table, p: Pending, addr: SocketAddr, route: Route, io: Io)
    requires forall id <- t.connections :: id < t.nextId
    ensures Good(env, t, Create(env, t, p, addr, route, io).t, io.t2)
  {
    hide Connection.Expired, QuicLb.IsServer, Pending.Requested;
    var out := Create(env, t, p, addr, route, io);
    if !io.connects {
      Unchanged(env, t, out.t, io.t2);
    }
  }

  lemma EstablishGood(env: Env, t: Table, p: Pending, route: Route, io: Io)
    requires forall id <- t.connections :: id < t.nextId
    ensures Good(env, t, Establish(env, t, p, route, io).t, io.t2)
  {
    hide Refusal, Join, Create, Existing, Normalize, Good;
    var out := Establish(env, t, p, route, io);
    if route.backend.Null? {
      Unchanged(env, t, out.t, io.t2);
    } else {
      var existing := Existing(t, Normalize(p.clientAddr), route.backend.addr);
      match Refusal(env, t, p, existing)
      case Some(reason) => Unchanged(env, t, out.t, io.t2);
      case None =>
        match existing
        case Some(id) => JoinGood(env, t, id, p, route, io);
        case None => CreateGood(env, t, p, route.backend.addr, route, io);
    }
  }

  /** Taking handshakes out of the pending table changes nothing here. */
  lemma IgnoresPending(env: Env, t: Table, mid: Table, t': Table, now: nat)
    requires mid.connections == t.connections && mid.nextId == t.nextId
    requires mid.toBackend == t.toBackend && mid.toClient == t.toClient
    requires Good(env, mid, t', now)
    ensures Good(env, t, t', now)
  {
    hide Connection.Expired, Connection.PathKey, Connection.Client;
    forall id | id in t.connections && t.connections[id].Expired(now, env.idleTimeout)
      ensures !SentOn(t, t', id)
    {
      assert !SentOn(mid, t', id);
    }
  }

  lemma ClientGood(env: Env, t: Table, peer: SocketAddr, packet: seq<byte>, io: Io)
    requires TableOk(env, t)
    ensures Good(env, t, ClientStep(env, t, peer, packet, io).t, io.t2)
  {
    hide TableOk, ClientFate, ForwardClient, Establish, Normalize, Good, HeldAt;
    FateConcernsPeer(env, t, peer, packet, io.t1);
    TableIds(env, t);
    match ClientFate(env, t, peer, packet, io.t1)
    case Along(id, scid) => ForwardGood(env, t, id, peer, packet, scid, io.t2, io.sends(0));
    case Waits(key, p) => Unchanged(env, t, t.(pending := t.pending[key := p]), io.t2);
    case Oversized => Unchanged(env, t, t, io.t2);
    case Dropped(spent, reason, count) => Unchanged(env, t, Spend(t, spent).Drop(reason, count), io.t2);
    case Arrives(spent, p, route) =>
      var mid := Spend(t, spent);
      if route.Failure? {
        Unchanged(env, t, mid, io.t2);
      } else {
        EstablishGood(env, mid, p, route.value, io);
        IgnoresPending(env, t, mid, Establish(env, mid, p, route.value, io).t, io.t2);
      }
  }

  lemma BackendGood(env: Env, t: Table, id: nat, packet: seq<byte>, now: nat, sendOk: bool)
    ensures Good(env, t, BackendStep(env, t, id, packet, now, sendOk).t, now)
  {
    hide Learn, L.Parse, Connection.Expired, Good;
    var out := BackendStep(env, t, id, packet, now, sendOk);
    if out.t.connections == t.connections && out.t.toClient == t.toClient && out.t.nextId == t.nextId &&
       out.t.toBackend == t.toBackend {
      Unchanged(env, t, out.t, now);
    } else {
      var c := t.connections[id];
      var long := L.Parse(packet).value;
      var c1 := c.(lastSeen := now, initialKeyDcid := RetryKey(long).GetOr(c.initialKeyDcid));
      var t1 := t.(connections := t.connections[id := c1]);
      LearnContinues(env, t1, id, SourceId(long));
      assert out.t.connections == t.connections[id := out.t.connections[id]];
      OneChanged(env, t, out.t, id, out.t.connections[id], now);
    }
  }

  /** The last time an event reads the clock. */
  function Time(e: Event, before: nat): nat {
    match e
    case ClientDatagram(_, _, io) => io.t2
    case BackendDatagram(_, _, now, _) => now
    case Reload(_) => before
    case Cleanup(now) => now
  }

  lemma CleanupGood(env: Env, t: Table, now: nat)
    ensures Good(env, t, CleanupStep(env, t, now), now)
  {
    hide Connection.Expired, Connection.PathKey, Stale;
  }

  /** Every step keeps paths, sends on paths only, and leaves expired connections alone. */
  lemma StepGood(env: Env, t: Table, e: Event, before: nat)
    requires TableOk(env, t)
    ensures Good(env, t, Step(env, t, e).t, Time(e, before))
  {
    hide TableOk, ClientStep, BackendStep, CleanupStep, Good;
    match e
    case ClientDatagram(peer, packet, io) => ClientGood(env, t, peer, packet, io);
    case BackendDatagram(id, packet, now, sendOk) => BackendGood(env, t, id, packet, now, sendOk);
    case Reload(config) => Unchanged(env, t, t.(config := config), before);
    case Cleanup(now) => CleanupGood(env, t, now);
  }

  // ----- path pinning over runs

  lemma EvolvesTransitive(a: Table, b: Table, c: Table)
    requires Evolves(a, b) && Evolves(b, c) && forall id <- a.connections :: id < a.nextId
    ensures Evolves(a, c)
  {
    hide Connection.PathKey;
  }

  /** Over a run, a connection's client and backend never change, and its deadline only comes closer. */
  lemma {:induction false} RunEvolves(env: Env, t: Table, events: seq<Event>)
    requires TableOk(env, t)
    ensures Evolves(t, Run(env, t, events))
    decreases |events|
  {
    hide TableOk, Step, Evolves, SendsOnPaths, SparesExpired;
    if events != [] {
      var next := Step(env, t, events[0]).t;
      StepGood(env, t, events[0], 0);
      StepKeeps(env, t, events[0]);
      RunEvolves(env, next, events[1..]);
      TableIds(env, t);
      EvolvesTransitive(t, next, Run(env, t, events));
    } else {
      assert Evolves(t, t) by {
        Unchanged(env, t, t, 0);
      }
    }
  }

  /** All traffic of an id, gone or not, was between one client and one backend. */
  ghost predicate OnePath(t: Table, id: nat, client: SocketAddr, backend: SocketAddr) {
    (id in t.connections ==> t.connections[id].PathKey() == (client, backend)) &&
    (forall f <- t.toBackend :: f.id == id ==> f.client == client && f.backend == backend) &&
    (forall r <- t.toClient :: r.id == id ==> Normalize(r.addr) == client)
  }

  ghost predicate Pinned(t: Table) {
    (forall id <- t.connections :: OnePath(t, id, t.connections[id].Client(), t.connections[id].backend)) &&
    (forall f <- t.toBackend :: f.id < t.nextId && OnePath(t, f.id, f.client, f.backend)) &&
    (forall r <- t.toClient :: r.id < t.nextId && exists backend :: OnePath(t, r.id, Normalize(r.addr), backend))
  }

  lemma OnePathKept(env: Env, t: Table, t': Table, id: nat, client: SocketAddr, backend: SocketAddr)
    requires Evolves(t, t') && SendsOnPaths(t, t') && OnePath(t, id, client, backend)
    requires id < t.nextId
    ensures OnePath(t', id, client, backend)
  {
    hide Connection.Client;
    forall f | f in t'.toBackend && f.id == id ensures f.client == client && f.backend == backend {
      var i :| 0 <= i < |t'.toBackend| && t'.toBackend[i] == f;
      if i < |t.toBackend| {
        assert f == t.toBackend[i];
      } else {
        assert ForwardedOn(t', t'.toBackend[i]);
      }
    }
    forall r | r in t'.toClient && r.id == id ensures Normalize(r.addr) == client {
      var i :| 0 <= i < |t'.toClient| && t'.toClient[i] == r;
      if i < |t.toClient| {
        assert r == t.toClient[i];
      } else {
        assert RepliedOn(t', t'.toClient[i]);
        PathKeyParts(t'.connections[id]);
        PathKeyParts(t.connections[id]);
      }
    }
  }

  lemma PathKeyParts(c: Connection)
    ensures c.PathKey() == (c.Client(), c.backend)
  {
  }

  lemma OldIds(t: Table)
    requires Pinned(t)
    ensures forall i | 0 <= i < |t.toBackend| :: t.toBackend[i].id < t.nextId
    ensures forall i | 0 <= i < |t.toClient| :: t.toClient[i].id < t.nextId
  {
    hide OnePath;
    forall i | 0 <= i < |t.toBackend| ensures t.toBackend[i].id < t.nextId {
      assert t.toBackend[i] in t.toBackend;
    }
    forall i | 0 <= i < |t.toClient| ensures t.toClient[i].id < t.nextId {
      assert t.toClient[i] in t.toClient;
    }
  }

  lemma NewIdOnePath(t: Table, t': Table, id: nat)
    requires Evolves(t, t') && SendsOnPaths(t, t') && Pinned(t)
    requires id >= t.nextId && id in t'.connections
    ensures OnePath(t', id, t'.connections[id].Client(), t'.connections[id].backend)
  {
    hide Normalize;
    OldIds(t);
    forall f | f in t'.toBackend && f.id == id ensures f.client == t'.connections[id].Client() && f.backend == t'.connections[id].backend {
      var i :| 0 <= i < |t'.toBackend| && t'.toBackend[i] == f;
      assert ForwardedOn(t', t'.toBackend[i]);
    }
    forall r | r in t'.toClient && r.id == id ensures Normalize(r.addr) == t'.connections[id].Client() {
      var i :| 0 <= i < |t'.toClient| && t'.toClient[i] == r;
      assert RepliedOn(t', t'.toClient[i]);
    }
  }

  lemma ConnectionOnePath(env: Env, t: Table, t': Table, id: nat)
    requires Evolves(t, t') && SendsOnPaths(t, t') && Pinned(t) && id in t'.connections
    requires forall x <- t.connections :: x < t.nextId
    ensures OnePath(t', id, t'.connections[id].Client(), t'.connections[id].backend)
  {
    hide Normalize, SendsOnPaths, OnePath;
    if id in t.connections {
      PathKeyParts(t.connections[id]);
      PathKeyParts(t'.connections[id]);
      OnePathKept(env, t, t', id, t.connections[id].Client(), t.connections[id].backend);
    } else {
      NewIdOnePath(t, t', id);
    }
  }

  lemma PinnedNext(env: Env, t: Table, t': Table)
    requires Evolves(t, t') && SendsOnPaths(t, t') && Pinned(t)
    requires (forall id <- t.connections :: id < t.nextId) && (forall id <- t'.connections :: id < t'.nextId)
    ensures Pinned(t')
  {
    hide Normalize, OnePath;
    forall id | id in t'.connections
      ensures OnePath(t', id, t'.connections[id].Client(), t'.connections[id].backend)
    {
      ConnectionOnePath(env, t, t', id);
    }
    forall f | f in t'.toBackend ensures f.id < t'.nextId && OnePath(t', f.id, f.client, f.backend) {
      var i :| 0 <= i < |t'.toBackend| && t'.toBackend[i] == f;
      if i < |t.toBackend| {
        assert f == t.toBackend[i];
        OnePathKept(env, t, t', f.id, f.client, f.backend);
      } else {
        assert ForwardedOn(t', t'.toBackend[i]);
        ConnectionOnePath(env, t, t', f.id);
      }
    }
    forall r | r in t'.toClient
      ensures r.id < t'.nextId && exists backend :: OnePath(t', r.id, Normalize(r.addr), backend)
    {
      var i :| 0 <= i < |t'.toClient| && t'.toClient[i] == r;
      if i < |t.toClient| {
        assert r == t.toClient[i];
        var backend :| OnePath(t, r.id, Normalize(r.addr), backend);
        OnePathKept(env, t, t', r.id, Normalize(r.addr), backend);
      } else {
        assert RepliedOn(t', t'.toClient[i]);
        ConnectionOnePath(env, t, t', r.id);
      }
    }
  }

  /**
   Over a run, everything forwarded on a connection came from one client address and went to one
   backend, and every reply on it went back to that client address, though the address a reply is
   sent to is overwritten by every client datagram.
   */
  lemma {:induction false} RunPinned(env: Env, t: Table, events: seq<Event>)
    requires TableOk(env, t) && Pinned(t)
    ensures Pinned(Run(env, t, events))
    decreases |events|
  {
    hide TableOk, Step, Evolves, SendsOnPaths, SparesExpired, Pinned;
    if events != [] {
      var next := Step(env, t, events[0]).t;
      StepGood(env, t, events[0], 0);
      StepKeeps(env, t, events[0]);
      TableIds(env, t);
      TableIds(env, next);
      PinnedNext(env, t, next);
      RunPinned(env, next, events[1..]);
    }
  }

  // ----- no resurrection

  /** The clock never goes back: each event reads it at `from` or later, in order. */
  ghost predicate Monotone(events: seq<Event>, from: nat)
    decreases |events|
  {
    events == [] ||
    (from <= Time(events[0], from) &&
     (events[0].ClientDatagram? ==> from <= events[0].io.t1 <= events[0].io.t2) &&
     Monotone(events[1..], Time(events[0], from)))
  }

  lemma StepFreezes(env: Env, t: Table, e: Event, id: nat, now: nat)
    requires TableOk(env, t) && id in t.connections && t.connections[id].Expired(now, env.idleTimeout)
    requires now <= Time(e, now)
    ensures var t' := Step(env, t, e).t;
            t.toBackend <= t'.toBackend && t.toClient <= t'.toClient && !SentOn(t, t', id) &&
            (id in t'.connections ==> t'.connections[id] == t.connections[id])
  {
    hide TableOk, Step, Evolves, Connection.Expired;
    StepGood(env, t, e, now);
    ExpiredStays(t.connections[id], env.idleTimeout, now, Time(e, now));
  }

  lemma StepAfterRemoval(env: Env, t: Table, e: Event, id: nat)
    requires TableOk(env, t) && id !in t.connections && id < t.nextId
    ensures var t' := Step(env, t, e).t;
            t.toBackend <= t'.toBackend && t.toClient <= t'.toClient && !SentOn(t, t', id) &&
            id !in t'.connections && id < t'.nextId
  {
    hide TableOk, Step, SparesExpired, Connection.PathKey, Connection.Client;
    StepGood(env, t, e, 0);
    var t' := Step(env, t, e).t;
    forall i | |t.toBackend| <= i < |t'.toBackend| ensures t'.toBackend[i].id != id {
      assert ForwardedOn(t', t'.toBackend[i]);
    }
    forall i | |t.toClient| <= i < |t'.toClient| ensures t'.toClient[i].id != id {
      assert RepliedOn(t', t'.toClient[i]);
    }
  }

  lemma SentOnLater(a: Table, b: Table, c: Table, id: nat)
    requires a.toBackend <= b.toBackend <= c.toBackend && a.toClient <= b.toClient <= c.toClient
    requires !SentOn(a, b, id) && !SentOn(b, c, id)
    ensures !SentOn(a, c, id)
  {
    forall i | |a.toBackend| <= i < |c.toBackend| ensures c.toBackend[i].id != id {
      if i < |b.toBackend| {
        assert b.toBackend[i] == c.toBackend[i];
      }
    }
    forall i | |a.toClient| <= i < |c.toClient| ensures c.toClient[i].id != id {
      if i < |b.toClient| {
        assert b.toClient[i] == c.toClient[i];
      }
    }
  }

  lemma {:induction false} RunAfterRemoval(env: Env, t: Table, events: seq<Event>, id: nat)
    requires TableOk(env, t) && id !in t.connections && id < t.nextId
    ensures var t' := Run(env, t, events);
            t.toBackend <= t'.toBackend && t.toClient <= t'.toClient && !SentOn(t, t', id) && id !in t'.connections
    decreases |events|
  {
    hide TableOk, Step, SentOn;
    if events != [] {
      var next := Step(env, t, events[0]).t;
      StepAfterRemoval(env, t, events[0], id);
      StepKeeps(env, t, events[0]);
      RunAfterRemoval(env, next, events[1..], id);
      SentOnLater(t, next, Run(env, t, events), id);
    } else {
      assert !SentOn(t, t, id) by {
        SentNothing(t, id);
      }
    }
  }

  lemma SentNothing(t: Table, id: nat)
    ensures !SentOn(t, t, id)
  {
  }

  /**
   Under a clock that never goes back, an expired connection forwards nothing in either direction
   and changes in nothing, ids and Retry key included, until it is removed; and it never returns.
   */
  lemma {:induction false} NoResurrection(env: Env, t: Table, events: seq<Event>, id: nat, now: nat)
    requires TableOk(env, t) && id in t.connections && t.connections[id].Expired(now, env.idleTimeout)
    requires Monotone(events, now)
    ensures var t' := Run(env, t, events);
            t.toBackend <= t'.toBackend && t.toClient <= t'.toClient && !SentOn(t, t', id) &&
            (id in t'.connections ==> t'.connections[id] == t.connections[id])
    decreases |events|
  {
    hide TableOk, Step, SentOn, Connection.Expired;
    if events != [] {
      var next := Step(env, t, events[0]).t;
      StepFreezes(env, t, events[0], id, now);
      StepKeeps(env, t, events[0]);
      if id in next.connections {
        ExpiredStays(t.connections[id], env.idleTimeout, now, Time(events[0], now));
        NoResurrection(env, next, events[1..], id, Time(events[0], now));
      } else {
        assert id < next.nextId by {
          StepGood(env, t, events[0], now);
          TableIds(env, t);
        }
        RunAfterRemoval(env, next, events[1..], id);
      }
      SentOnLater(t, next, Run(env, t, events), id);
    } else {
      SentNothing(t, id);
    }
  }

  /**
   A cleanup leaves no expired connection, keeps the others as they were, and lets no lookup, by id, by
   path or by client, find one that it removed.
   */
  lemma CleanupRemovesExpired(env: Env, t: Table, now: nat)
    ensures var t' := CleanupStep(env, t, now);
            (forall id <- t'.connections :: !t'.connections[id].Expired(now, env.idleTimeout)) &&
            (forall id <- t.connections :: !t.connections[id].Expired(now, env.idleTimeout) ==>
               id in t'.connections && t'.connections[id] == t.connections[id]) &&
            (forall id <- t.connections :: t.connections[id].Expired(now, env.idleTimeout) ==> NotFound(env, t', id))
  {
    hide Connection.Expired, Stale, Connection.PathKey, Connection.Client;
  }

  /** No lookup finds the connection, at any time. */
  ghost predicate NotFound(env: Env, t: Table, id: nat) {
    (forall cid :: OwnerOf(t.connections, cid) != Some(id)) &&
    (forall key :: SharedPath(t.connections, t.shared, key) != Some(id)) &&
    (forall client, now :: !LivePeer(env, t.connections, client, now, id))
  }
}
