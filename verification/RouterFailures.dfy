/** When a step returns an error, and so when a datagram may vanish without being counted. */
module RouterFailures {
  import opened Wrappers
  import opened Bytes
  import opened Addresses
  import opened Routing
  import opened Frames
  import opened RouterTable
  import opened RouterInvariant
  import opened RouterConservation
  import opened RouterHandshake
  import opened RouterExample
  import QuicLb
  import L = LongHeader
  import P = InitialProtection
  import Hello = ClientHello

  // ----- the guards

  /** A handshake that is accepted needs a socket of its own unless it joins a path, and every send to succeed. */
  ghost predicate RegistrationFails(env: Env, t: Table, p: Pending, route: Route, io: Io) {
    Accepted(env, t, p, route, io) &&
    ((Joined(t, p, route).None? && !io.connects) || exists k: nat :: k < |p.datagrams| && !io.sends(k))
  }

  ghost predicate FateFails(env: Env, t: Table, fate: Fate, io: Io) {
    match fate
    case Along(id, _) => id in t.connections && !t.connections[id].Expired(io.t2, env.idleTimeout) && !io.sends(0)
    case Arrives(spent, p, route) => route.Failure? || RegistrationFails(env, Spend(t, spent), p, route.value, io)
    case Oversized => true
    case _ => false
  }

  /** What makes a step fail, all of it known before the step but for the answers of the sockets. */
  ghost predicate Fails(env: Env, t: Table, e: Event) {
    match e
    case ClientDatagram(peer, packet, io) => FateFails(env, t, ClientFate(env, t, peer, packet, io.t1), io)
    case BackendDatagram(id, packet, now, sendOk) =>
      L.Parse(packet).Success? && id in t.connections && !t.connections[id].Expired(now, env.idleTimeout) && !sendOk
    case _ => false
  }

  // ----- are exact

  lemma AllSent(sends: nat -> bool, n: nat)
    ensures SentCount(sends, n) == n <==> forall k: nat | k < n :: sends(k)
  {
  }

  lemma EstablishFails(env: Env, t: Table, p: Pending, route: Route, io: Io)
    ensures Establish(env, t, p, route, io).ok <==> !RegistrationFails(env, t, p, route, io)
  {
    hide Refusal, Existing, Connection.Expired, QuicLb.IsServer, Pending.Requested, Registrable, Normalize, Log, SentCount;
    AllSent(io.sends, |p.datagrams|);
  }

  lemma ForwardFails(env: Env, t: Table, id: nat, peer: SocketAddr, packet: seq<byte>, scid: Cid, now: nat, sendOk: bool)
    ensures ForwardClient(env, t, id, peer, packet, scid, now, sendOk).ok <==>
            !(id in t.connections && !t.connections[id].Expired(now, env.idleTimeout) && !sendOk)
  {
    hide Learn, Connection.Expired, Normalize;
  }

  lemma ClientFails(env: Env, t: Table, peer: SocketAddr, packet: seq<byte>, io: Io)
    ensures ClientStep(env, t, peer, packet, io).ok <==> !FateFails(env, t, ClientFate(env, t, peer, packet, io.t1), io)
  {
    hide ClientFate, ForwardClient, Establish, RegistrationFails, Connection.Expired;
    var fate := ClientFate(env, t, peer, packet, io.t1);
    match fate
    case Along(id, scid) => ForwardFails(env, t, id, peer, packet, scid, io.t2, io.sends(0));
    case Arrives(spent, p, route) =>
      if route.Success? {
        EstablishFails(env, Spend(t, spent), p, route.value, io);
      }
    case _ =>
  }

  /** A step fails exactly under these guards. */
  lemma StepFails(env: Env, t: Table, e: Event)
    ensures Step(env, t, e).ok <==> !Fails(env, t, e)
  {
    hide ClientStep, ClientFate, FateFails, Learn, L.Parse, Connection.Expired, CleanupStep;
    if e.ClientDatagram? {
      ClientFails(env, t, e.peer, e.packet, e.io);
    }
  }

  /** Only a QUIC-LB datagram that opens a path of its own can be too large, being larger than any UDP datagram. */
  lemma OversizedExactly(env: Env, t: Table, peer: SocketAddr, packet: seq<byte>, now: nat)
    ensures ClientFate(env, t, peer, packet, now).Oversized? <==>
            packet != [] && L.Parse(packet).Success? && |packet| > 131072 &&
            var addr := LbBackend(t.config, packet, L.Parse(packet).value);
            addr.Some? && forall id :: !IsPath(t.connections, t.shared, (Normalize(peer), addr.value), id)
  {
    hide UnroutedFate, L.Parse, LbBackend, OwnerOf, LongestOwnerOf, Normalize, Connection.Expired, IsPath;
    NeverOversized(env, t, peer, packet, now);
  }

  lemma NeverOversized(env: Env, t: Table, peer: SocketAddr, packet: seq<byte>, now: nat)
    ensures forall long: Option<L.Cids> :: !UnroutedFate(env, t, peer, packet, long, now).Oversized?
  {
    hide Absorb, P.Decrypt, Crypto, PeerConnection, RouteForSni, Normalize, PendingBytes;
  }

  // ----- when nothing fails

  /** Sockets that answer well, a datagram of a size that exists, and access lists with a default action. */
  ghost predicate Sound(t: Table, e: Event) {
    match e
    case ClientDatagram(_, packet, io) =>
      io.connects && (forall k: nat :: io.sends(k)) && |packet| <= 131072 && t.config.Specified()
    case BackendDatagram(_, _, _, sendOk) => sendOk
    case _ => true
  }

  lemma SoundFate(env: Env, t: Table, peer: SocketAddr, packet: seq<byte>, now: nat)
    requires t.config.Specified()
    ensures var fate := ClientFate(env, t, peer, packet, now); fate.Arrives? ==> fate.route.Success?
  {
    hide Absorb, P.Decrypt, Crypto, PeerConnection, RouteForSni, Normalize, PendingBytes, PacketConnection, LbBackend,
      SharedPath, Push, Connection.Expired, Config.Specified, Config.Valid;
    forall sni ensures RouteForSni(t.config, peer, sni).Success? {
      SpecifiedRoutes(t.config, peer, sni);
    }
  }

  lemma SoundStepSucceeds(env: Env, t: Table, e: Event)
    requires Sound(t, e)
    ensures Step(env, t, e).ok
  {
    hide Step, ClientFate, LbBackend, Connection.Expired, Config.Specified, IsPath, Accepted;
    StepFails(env, t, e);
    if e.ClientDatagram? {
      SoundFate(env, t, e.peer, e.packet, e.io.t1);
      OversizedExactly(env, t, e.peer, e.packet, e.io.t1);
    }
  }

  // ----- and datagrams do vanish: the first Initial, when its upstream socket cannot be connected

  lemma UnconnectedFails(env: Env, t: Table, peer: SocketAddr, lone: Lone, hello: Hello.Hello, io: Io)
    requires Initial(t) && lone.Valid() && env.primitives.Lawful() && Roomy(env, |lone.Packet(env.primitives)|)
    requires hello.Valid() && lone.chunk == Chunk(0, hello.Write())
    requires env.limits.maxPaths > 0 && env.limits.maxCidsPerPath >= 2 && !io.connects
    requires QuicLb.Lookup(t.config.quicLb, lone.Dcid()).None? && lone.Scid() != []
    requires RouteForSni(t.config, peer, hello.Host()).Success?
    requires RouteForSni(t.config, peer, hello.Host()).value.backend.Udp?
    ensures Fails(env, t, ClientDatagram(peer, lone.Packet(env.primitives), io))
  {
    hide Lone.Valid, ClientFate, RouteForSni, Hello.Hello.Host, Hello.Hello.Write, Hello.Hello.Valid, QuicLb.Lookup, Roomy, P.Primitives.Lawful, Accepted, Joined,
      Pending.Requested;
    LoneArrives(env, t, peer, lone, hello, io.t1);
    var fate := ClientFate(env, t, peer, lone.Packet(env.primitives), io.t1);
    TwoIds(fate.p, lone.Dcid(), lone.Scid());
    FirstIsAccepted(env, Spend(t, fate.spent), fate.p, fate.route.value, io);
  }

  /** A router that has just started can lose a datagram in its first step without counting it. */
  lemma VanishIsReached() returns (env: Env, t: Table, e: Event)
    ensures Initial(t) && !Step(env, t, e).ok && Accounted(Step(env, t, e).t) < Accounted(t) + Incoming(e)
  {
    hide Step, Fails, Roomy, Lone.Valid, OpenTo, Decodable, RouteForSni, QuicLb.Lookup, Hello.Hello.Host, Hello.Hello.Write, Nameless,
      P.Primitives.Lawful, Config.Specified, P.Plain.Protect, TableOk, Accounted;
    var lone;
    NamelessIsShort();
    env, t, lone := ExampleStart();
    e := ClientDatagram(V4(3, 3), lone.Packet(env.primitives), Io(0, 0, false, _ => true));
    ExampleRoute(t.config, V4(2, 2), V4(3, 3));
    UnconnectedFails(env, t, V4(3, 3), lone, Nameless(), e.io);
    InitialOk(env, t);
    StepFails(env, t, e);
    StepConserves(env, t, e);
  }

  // ----- over a run

  ghost predicate NoneFails(env: Env, t: Table, events: seq<Event>)
    decreases |events|
  {
    events == [] || (!Fails(env, t, events[0]) && NoneFails(env, Step(env, t, events[0]).t, events[1..]))
  }

  lemma {:induction false} NoneFailsIsAllOk(env: Env, t: Table, events: seq<Event>)
    ensures NoneFails(env, t, events) <==> AllOk(env, t, events)
    decreases |events|
  {
    hide Step, Fails;
    if events != [] {
      StepFails(env, t, events[0]);
      NoneFailsIsAllOk(env, Step(env, t, events[0]).t, events[1..]);
    }
  }

  /**
   From the start on, what was forwarded, returned, dropped under a reason and buffered adds up to what
   arrived, if and only if none of the guards was met on the way.
   */
  lemma ConservesUnlessFailing(env: Env, t: Table, events: seq<Event>)
    requires Initial(t)
    ensures NoneFails(env, t, events) <==> Accounted(Run(env, t, events)) == Arrivals(events)
  {
    hide NoneFails, AllOk, Accounted, Initial;
    NoneFailsIsAllOk(env, t, events);
    ReachableConserves(env, t, events);
  }
}
