/**
 Learning an id asks first whether QUIC-LB decodes it; registering a new path does not. So that no
 registered id decodes is no invariant, and this module says exactly which steps break it.
 */
module RouterDecodable {
  import opened Wrappers
  import opened Bytes
  import opened Addresses
  import opened Routing
  import opened Frames
  import opened RouterTable
  import opened RouterInvariant
  import opened RouterHandshake
  import opened RouterFailures
  import opened RouterExample
  import QuicLb
  import L = LongHeader
  import P = InitialProtection
  import Hello = ClientHello

  ghost predicate Decodes(config: LoadedConfig, cids: set<Cid>) {
    exists cid :: cid in cids && QuicLb.Lookup(config.quicLb, cid).Some?
  }

  /** No registered id is one that QUIC-LB decodes. */
  ghost predicate NoneDecodes(t: Table) {
    forall id <- t.connections :: !Decodes(t.config, t.connections[id].cids)
  }

  // ----- which steps break it

  /** The handshake gets a path of its own, and one of its ids decodes. */
  ghost predicate OpensDecodable(env: Env, t: Table, p: Pending, route: Route, io: Io) {
    Accepted(env, t, p, route, io) && Joined(t, p, route).None? && io.connects && Decodes(t.config, p.Requested())
  }

  ghost predicate Breaks(env: Env, t: Table, e: Event) {
    match e
    case ClientDatagram(peer, packet, io) =>
      var fate := ClientFate(env, t, peer, packet, io.t1);
      fate.Arrives? && fate.route.Success? && OpensDecodable(env, Spend(t, fate.spent), fate.p, fate.route.value, io)
    case Reload(config) => exists id :: id in t.connections && Decodes(config, t.connections[id].cids)
    case _ => false
  }

  lemma DecodesUnion(config: LoadedConfig, a: set<Cid>, b: set<Cid>)
    ensures Decodes(config, a + b) <==> Decodes(config, a) || Decodes(config, b)
  {
    hide QuicLb.Lookup;
  }

  lemma LearnDecodes(env: Env, t: Table, id: nat, cid: Cid)
    requires NoneDecodes(t)
    ensures NoneDecodes(Learn(env, t, id, cid))
  {
    hide QuicLb.Lookup, OwnerOf, Decodes;
    if id in t.connections {
      DecodesUnion(t.config, t.connections[id].cids, {cid});
      OneDecodes(t.config, cid);
    }
  }

  lemma OneDecodes(config: LoadedConfig, cid: Cid)
    ensures Decodes(config, {cid}) <==> QuicLb.Lookup(config.quicLb, cid).Some?
  {
    hide QuicLb.Lookup;
  }

  lemma ForwardDecodes(env: Env, t: Table, id: nat, peer: SocketAddr, packet: seq<byte>, scid: Cid, now: nat, sendOk: bool)
    requires NoneDecodes(t)
    ensures NoneDecodes(ForwardClient(env, t, id, peer, packet, scid, now, sendOk).t)
  {
    hide Learn, Connection.Expired, Normalize, Decodes;
    if id in t.connections {
      var c := t.connections[id];
      var t1 := t.(connections := t.connections[id := c.(clientAddr := peer, lastSeen := now)],
                   toBackend := t.toBackend + [Forwarded(id, c.backend, Normalize(peer), packet)]);
      LearnDecodes(env, t1, id, scid);
    }
  }

  lemma JoinDecodes(env: Env, t: Table, id: nat, p: Pending, route: Route, io: Io)
    requires NoneDecodes(t) && id in t.connections
    ensures NoneDecodes(Join(env, t, id, p, route, io).t)
  {
    hide Connection.Expired, QuicLb.Lookup, Pending.Requested, Log, Decodes;
    DecodesUnion(t.config, t.connections[id].cids, Registrable(t, p));
    assert !Decodes(t.config, Registrable(t, p)) by {
      RegistrableDecodes(t, p);
    }
  }

  lemma RegistrableDecodes(t: Table, p: Pending)
    ensures !Decodes(t.config, Registrable(t, p))
  {
    hide QuicLb.Lookup, Pending.Requested;
  }

  lemma CreateDecodes(env: Env, t: Table, p: Pending, addr: SocketAddr, route: Route, io: Io)
    requires NoneDecodes(t) && t.nextId !in t.connections
    ensures NoneDecodes(Create(env, t, p, addr, route, io).t) <==> !(io.connects && Decodes(t.config, p.Requested()))
  {
    hide QuicLb.IsServer, Pending.Requested, Decodes, Normalize, Log;
    if io.connects {
      assert t.nextId in Create(env, t, p, addr, route, io).t.connections;
    }
  }

  lemma EstablishDecodes(env: Env, t: Table, p: Pending, route: Route, io: Io)
    requires NoneDecodes(t) && t.nextId !in t.connections
    ensures NoneDecodes(Establish(env, t, p, route, io).t) <==> !OpensDecodable(env, t, p, route, io)
  {
    hide Refusal, Join, Create, Existing, Normalize, Decodes, Connection.Expired;
    if route.backend.Udp? {
      var existing := Existing(t, Normalize(p.clientAddr), route.backend.addr);
      if Refusal(env, t, p, existing).None? {
        match existing
        case Some(id) => JoinDecodes(env, t, id, p, route, io);
        case None => CreateDecodes(env, t, p, route.backend.addr, route, io);
      }
    }
  }

  lemma ClientDecodes(env: Env, t: Table, peer: SocketAddr, packet: seq<byte>, io: Io)
    requires NoneDecodes(t) && t.nextId !in t.connections
    ensures NoneDecodes(ClientStep(env, t, peer, packet, io).t) <==> !Breaks(env, t, ClientDatagram(peer, packet, io))
  {
    hide ClientFate, ForwardClient, Establish, OpensDecodable, Decodes;
    match ClientFate(env, t, peer, packet, io.t1)
    case Along(id, scid) => ForwardDecodes(env, t, id, peer, packet, scid, io.t2, io.sends(0));
    case Arrives(spent, p, route) =>
      if route.Success? {
        EstablishDecodes(env, Spend(t, spent), p, route.value, io);
      }
    case _ =>
  }

  lemma BackendDecodes(env: Env, t: Table, id: nat, packet: seq<byte>, now: nat, sendOk: bool)
    requires NoneDecodes(t)
    ensures NoneDecodes(BackendStep(env, t, id, packet, now, sendOk).t)
  {
    hide Learn, L.Parse, Connection.Expired, Decodes;
    if L.Parse(packet).Success? && id in t.connections {
      var c := t.connections[id];
      var long := L.Parse(packet).value;
      var t1 := t.(connections := t.connections[id := c.(lastSeen := now, initialKeyDcid := RetryKey(long).GetOr(c.initialKeyDcid))]);
      LearnDecodes(env, t1, id, SourceId(long));
    }
  }

  /**
   While no registered id decodes, a step leaves it so unless it opens a path of its own for a
   handshake one of whose ids decodes, or loads a configuration under which some registered id does.
   */
  lemma StepDecodes(env: Env, t: Table, e: Event)
    requires TableOk(env, t) && NoneDecodes(t)
    ensures NoneDecodes(Step(env, t, e).t) <==> !Breaks(env, t, e)
  {
    hide TableOk, ClientStep, BackendStep, ClientFate, OpensDecodable, Decodes, Connection.Expired, Stale;
    TableIds(env, t);
    match e
    case ClientDatagram(peer, packet, io) => ClientDecodes(env, t, peer, packet, io);
    case BackendDatagram(id, packet, now, sendOk) => BackendDecodes(env, t, id, packet, now, sendOk);
    case Reload(_) =>
    case Cleanup(_) =>
  }

  /** No event of the run breaks it. */
  ghost predicate NeverBreaks(env: Env, t: Table, events: seq<Event>)
    decreases |events|
  {
    events == [] || (!Breaks(env, t, events[0]) && NeverBreaks(env, Step(env, t, events[0]).t, events[1..]))
  }

  ghost predicate AlwaysNone(env: Env, t: Table, events: seq<Event>)
    decreases |events|
  {
    NoneDecodes(t) && (events == [] || AlwaysNone(env, Step(env, t, events[0]).t, events[1..]))
  }

  /** It holds throughout a run exactly when it holds at first and no event breaks it. */
  lemma {:induction false} RunDecodes(env: Env, t: Table, events: seq<Event>)
    requires TableOk(env, t) && NoneDecodes(t)
    ensures AlwaysNone(env, t, events) <==> NeverBreaks(env, t, events)
    decreases |events|
  {
    hide TableOk, Step, NoneDecodes, Breaks;
    if events != [] {
      var next := Step(env, t, events[0]).t;
      StepDecodes(env, t, events[0]);
      StepKeeps(env, t, events[0]);
      if NoneDecodes(next) {
        RunDecodes(env, next, events[1..]);
      }
    }
  }

  // ----- it is the client's own id that does it

  lemma EmptyNeverDecodes(config: LoadedConfig)
    ensures QuicLb.Lookup(config.quicLb, []).None?
  {
    hide QuicLb.Lookup;
    if QuicLb.Lookup(config.quicLb, []).Some? {
      QuicLb.LookupIsServer(config.quicLb, []);
    }
  }

  lemma DestinationNeverDecodes(env: Env, t: Table, peer: SocketAddr, packet: seq<byte>, now: nat)
    requires TableOk(env, t)
    ensures var fate := ClientFate(env, t, peer, packet, now);
            fate.Arrives? ==> QuicLb.Lookup(t.config.quicLb, fate.p.initialDcid).None?
  {
    hide TableOk, HandshakeFate, Crypto, Normalize, Connection.Expired, L.Parse, P.Decrypt, QuicLb.Lookup, OwnerOf, LongestOwnerOf;
    EmptyNeverDecodes(t.config);
    var d := P.Decrypt(env.primitives, packet, None);
    if d.Success? {
      DecryptedIds(env.primitives, packet);
      if Crypto(d.value.payload).Success? {
        HandshakeKey(env, t, peer, packet, d.value, Crypto(d.value.payload).value, now);
      }
    }
  }

  /** Of the ids of a handshake that gets registered, only source ids of its datagrams can decode. */
  lemma OnlySourceIdsDecode(env: Env, t: Table, peer: SocketAddr, packet: seq<byte>, now: nat)
    requires TableOk(env, t)
    ensures var fate := ClientFate(env, t, peer, packet, now);
            fate.Arrives? ==> (Decodes(t.config, fate.p.Requested()) <==> Decodes(t.config, fate.p.clientCids))
  {
    hide TableOk, ClientFate, QuicLb.Lookup;
    DestinationNeverDecodes(env, t, peer, packet, now);
    EmptyNeverDecodes(t.config);
  }

  // ----- and it does happen: one Initial, whose source id decodes, breaks it from the start

  /** An Initial whose source id decodes, on a router that has just started and routes by default. */
  lemma LoneBreaks(env: Env, t: Table, peer: SocketAddr, lone: Lone, hello: Hello.Hello, io: Io)
    requires Initial(t) && lone.Valid() && env.primitives.Lawful() && Roomy(env, |lone.Packet(env.primitives)|)
    requires hello.Valid() && lone.chunk == Chunk(0, hello.Write())
    requires env.limits.maxPaths > 0 && env.limits.maxCidsPerPath >= 2 && io.connects
    requires QuicLb.Lookup(t.config.quicLb, lone.Dcid()).None?
    requires QuicLb.Lookup(t.config.quicLb, lone.Scid()).Some?
    requires RouteForSni(t.config, peer, hello.Host()).Success?
    requires RouteForSni(t.config, peer, hello.Host()).value.backend.Udp?
    ensures Breaks(env, t, ClientDatagram(peer, lone.Packet(env.primitives), io))
  {
    hide Lone.Valid, ClientFate, RouteForSni, Hello.Hello.Host, Hello.Hello.Write, Hello.Hello.Valid, QuicLb.Lookup, Roomy, P.Primitives.Lawful, Accepted, Joined,
      Pending.Requested;
    LoneArrives(env, t, peer, lone, hello, io.t1);
    EmptyNeverDecodes(t.config);
    var fate := ClientFate(env, t, peer, lone.Packet(env.primitives), io.t1);
    TwoIds(fate.p, lone.Dcid(), lone.Scid());
    FirstIsAccepted(env, Spend(t, fate.spent), fate.p, fate.route.value, io);
  }

  /**
   So "no registered id is one that QUIC-LB decodes" is no invariant: a router that has just started
   loses it to a single Initial, in a step without any error.
   */
  lemma DecodableIsReached() returns (env: Env, t: Table, e: Event)
    ensures Initial(t) && NoneDecodes(t) && Step(env, t, e).ok && !NoneDecodes(Step(env, t, e).t)
  {
    hide Step, Breaks, Roomy, Lone.Valid, OpenTo, Decodable, Plainly, RouteForSni, QuicLb.Lookup, Hello.Hello.Host, Hello.Hello.Write, Nameless,
      P.Primitives.Lawful, Config.Specified, P.Plain.Protect, TableOk;
    var lone;
    NamelessIsShort();
    env, t, lone := ExampleStart();
    e := ClientDatagram(V4(3, 3), lone.Packet(env.primitives), Io(0, 0, true, _ => true));
    DecodableDecodes(t.config, V4(2, 2));
    ExampleRoute(t.config, V4(2, 2), V4(3, 3));
    LoneBreaks(env, t, V4(3, 3), lone, Nameless(), e.io);
    InitialOk(env, t);
    StepDecodes(env, t, e);
    SoundStepSucceeds(env, t, e);
  }
}
