/**
 On a path that handshakes join, order is lost for good reason: a datagram that names the path is
 forwarded at once, while those of a handshake wait. Here is a run in which one overtakes the other.
 */
module RouterOvertaking {
  import opened Wrappers
  import opened Bytes
  import opened Addresses
  import opened Routing
  import opened Frames
  import opened Totals
  import opened RouterTable
  import opened RouterInvariant
  import opened RouterFate
  import opened RouterHandshake
  import opened RouterFailures
  import opened RouterProvenance
  import opened RouterOrder
  import opened RouterEndToEnd
  import opened RouterExample
  import QuicLb
  import P = InitialProtection
  import R = CryptoReassembly
  import O = ReassemblyOrder
  import Hello = ClientHello

  const CLIENT: SocketAddr := V4(3, 3)
  const SERVER: SocketAddr := V4(1, 1)

  /** All at one instant, and every socket willing. */
  function Willing(): Io {
    Io(0, 0, true, _ => true)
  }

  function Sent(packet: seq<byte>): Event {
    ClientDatagram(CLIENT, packet, Willing())
  }

  /** One connection, number 0: the client's shared path to the server, without ids. */
  ghost predicate OnlyPath(t: Table, carried: seq<seq<byte>>) {
    OpenTo(t.config, SERVER) && t.connections.Keys == {0} && t.shared == {0} && t.nextId == 1 &&
    OnPath(t.toBackend, 0, CLIENT) == carried &&
    var c := t.connections[0];
    c.PathKey() == (CLIENT, SERVER) && c.cids == {} && c.lastSeen == 0 && c.deadline == None
  }

  // ----- a datagram that names the path

  /** A short header with an id of the server. */
  function Short(): seq<byte> {
    [0x40] + Decodable()
  }

  lemma ShortNamesServer(t: Table)
    requires OpenTo(t.config, SERVER)
    ensures PacketConnection(t.connections, Short()).Success? && PacketConnection(t.connections, Short()).value.0 == None
    ensures LbBackend(t.config, Short(), None) == Some(SERVER) && |Short()| == 18 && Short()[0] < 0x80
  {
    hide QuicLb.Lookup, OpenTo, LongestOwnerOf, Decodable;
    assert Short()[1..18] == Decodable();
    DecodableDecodes(t.config, SERVER);
  }

  /** The first one opens the path. */
  lemma ShortOpens(env: Env, t: Table)
    requires Initial(t) && OpenTo(t.config, SERVER) && env.limits.maxPaths > 0
    ensures var t' := Step(env, t, Sent(Short())).t; OnlyPath(t', [Short()]) && t'.pending == map[]
  {
    hide OpenTo, Short, PacketConnection, LbBackend, UnroutedFate, ForwardClient, Establish, OnPath, Accepted, Joined, OnlyPath;
    ShortNamesServer(t);
    var p := NewPending(CLIENT, [], 0).(datagrams := [Short()], bufferedBytes := |Short()|);
    var route := Route(Udp(SERVER), None);
    assert t.config.maxLifetime == None by {
      NoLifetime(t.config);
    }
    assert ClientFate(env, t, CLIENT, Short(), 0) == Arrives(None, p, Success(route));
    NothingRequested(p);
    FirstIsAccepted(env, t, p, route, Willing());
    OpensOnly(env, t, p, route);
  }

  lemma NoLifetime(c: LoadedConfig)
    requires OpenTo(c, SERVER)
    ensures c.maxLifetime == None
  {
  }

  lemma NothingRequested(p: Pending)
    requires p.initialDcid == [] && p.clientCids == {}
    ensures p.Requested() == {}
  {
  }

  lemma OpensOnly(env: Env, t: Table, p: Pending, route: Route)
    requires Initial(t) && OpenTo(t.config, SERVER) && route == Route(Udp(SERVER), None)
    requires p.clientAddr == CLIENT && p.Requested() == {} && |p.datagrams| == 1
    requires Accepted(env, t, p, route, Willing()) && Joined(t, p, route).None?
    ensures var t' := Establish(env, t, p, route, Willing()).t; OnlyPath(t', p.datagrams) && t'.pending == map[]
  {
    hide Refusal, Existing, OnPath, Pending.Requested;
    var t' := Establish(env, t, p, route, Willing()).t;
    ServerIsListed(t.config);
    var n := CreateSends(env, t, p, SERVER, route, Willing());
    AllSent(Willing().sends, 1);
    SendsOnPath(t, t', 0, CLIENT, p.datagrams, 0, CLIENT);
    assert OnPath(t.toBackend, 0, CLIENT) == [] by {
      NothingOnNewPath(t.toBackend, 0, CLIENT);
    }
  }

  lemma ServerIsListed(c: LoadedConfig)
    requires OpenTo(c, SERVER)
    ensures QuicLb.IsServer(c.quicLb, SERVER)
  {
    assert c.quicLb[0].servers[0] == SERVER;
    assert SERVER in c.quicLb[0].servers.Values;
  }

  lemma TheSharedPath(t: Table, carried: seq<seq<byte>>)
    requires OnlyPath(t, carried)
    ensures SharedPath(t.connections, t.shared, (CLIENT, SERVER)) == Some(0)
  {
    hide OpenTo, OnPath, Connection.PathKey;
    assert IsPath(t.connections, t.shared, (CLIENT, SERVER), 0);
  }

  /** Any later one is forwarded at once. */
  lemma ShortIsForwarded(env: Env, t: Table, carried: seq<seq<byte>>)
    requires OnlyPath(t, carried) && env.idleTimeout > 0
    ensures var t' := Step(env, t, Sent(Short())).t; OnlyPath(t', carried + [Short()]) && t'.pending == t.pending
  {
    hide OpenTo, Short, PacketConnection, LbBackend, UnroutedFate, Establish, OnPath, SharedPath;
    ShortNamesServer(t);
    TheSharedPath(t, carried);
    assert ClientFate(env, t, CLIENT, Short(), 0) == Along(0, []);
    var t' := Step(env, t, Sent(Short())).t;
    assert t'.toBackend == t.toBackend + [Forwarded(0, SERVER, CLIENT, Short())];
    OnPathOne(t.toBackend, Forwarded(0, SERVER, CLIENT, Short()), 0, CLIENT);
  }

  // ----- a handshake that joins it

  lemma JoinFlushes(env: Env, t: Table, carried: seq<seq<byte>>, p: Pending)
    requires OnlyPath(t, carried) && env.idleTimeout > 0 && Normalize(p.clientAddr) == CLIENT
    requires |p.Requested()| <= env.limits.maxCidsPerPath
    ensures var t' := Establish(env, t, p, Route(Udp(SERVER), None), Willing()).t;
            OnPath(t'.toBackend, 0, CLIENT) == carried + p.datagrams
  {
    hide OpenTo, OnPath, SharedPath, Pending.Requested, Registrable;
    var route := Route(Udp(SERVER), None);
    TheSharedPath(t, carried);
    ServerIsListed(t.config);
    assert Existing(t, CLIENT, SERVER) == Some(0);
    forall cid ensures OwnerOf(t.connections, cid).None? {
      OwnerIsHere(t.connections, cid);
    }
    assert p.Requested() - {} == p.Requested();
    assert Refusal(env, t, p, Some(0)).None?;
    var t' := Establish(env, t, p, route, Willing()).t;
    AllSent(Willing().sends, |p.datagrams|);
    assert p.datagrams[..|p.datagrams|] == p.datagrams;
    assert t' == Join(env, t, 0, p, route, Willing()).t;
    assert t'.toBackend == t.toBackend + Log(0, t.connections[0], p.datagrams);
    SendsOnPath(t, t', 0, CLIENT, p.datagrams, 0, CLIENT);
  }

  // ----- a handshake in two pieces

  lemma {:induction false} RunOneMore(env: Env, t: Table, events: seq<Event>, e: Event)
    ensures Run(env, t, events + [e]) == Step(env, Run(env, t, events), e).t
    decreases |events|
  {
    hide Step;
    if events == [] {
      assert [] + [e] == [e] && [e][1..] == [];
    } else {
      assert (events + [e])[0] == events[0] && (events + [e])[1..] == events[1..] + [e];
      RunOneMore(env, Step(env, t, events[0]).t, events[1..], e);
    }
  }

  /** An Initial for the handshake under id [1], with one piece of the stream. */
  ghost predicate Piece(env: Env, lone: Lone, msg: seq<byte>) {
    lone.Valid() && env.primitives.Lawful() && lone.Dcid() == [1] && |lone.Scid()| == 17 && R.Agrees(lone.chunk, msg) &&
    |lone.Packet(env.primitives)| <= 200
  }

  lemma PieceIsPiece(env: Env, lone: Lone, msg: seq<byte>)
    requires Piece(env, lone, msg)
    ensures PacketChunks(env.primitives, lone.Packet(env.primitives)) == Some(([lone.chunk], lone.Scid()))
    ensures IsPiece(env.primitives, lone.Packet(env.primitives), [1], msg)
  {
    hide P.Plain.Protect, P.Plain.Valid, PacketChunks, Frame.Valid, WellFormed, Encode, Chunks, KeyId, R.Agrees;
    ProtectedCarriesItsChunks(env.primitives, lone.plain, [lone.frame], []);
    assert lone.Packet(env.primitives) + [] == lone.Packet(env.primitives);
  }

  lemma ShortIsPiece(env: Env, msg: seq<byte>)
    ensures IsPiece(env.primitives, Short(), [1], msg)
  {
    hide PacketChunks, R.AllAgree, Decodable;
    assert Short()[0] == 0x40;
  }

  lemma PieceOpens(env: Env, t: Table, carried: seq<seq<byte>>, lone: Lone, msg: seq<byte>)
    requires OnlyPath(t, carried) && Piece(env, lone, msg)
    ensures Opens(env, t, lone.Packet(env.primitives), lone.Opened(), [lone.chunk])
    ensures lone.Packet(env.primitives) != [] && lone.Packet(env.primitives)[0] >= 0x80
  {
    hide OpenTo, Lone.Valid, OnPath, QuicLb.Lookup, P.Primitives.Lawful, R.Agrees, Opens, Connection.PathKey;
    OwnerIsHere(t.connections, [1]);
    ExampleRoute(t.config, SERVER, CLIENT);
    LoneOpens(env, t, lone);
  }

  /** Room for two datagrams of 200 bytes and all their chunks. */
  lemma PieceFits(env: Env, t: Table, packet: seq<byte>, d: P.Decrypted, chunks: seq<Chunk>, held: seq<seq<byte>>)
    requires TableOk(env, t) && t.pending.Keys <= {(CLIENT, d.dcid)} && HeldAt(t, (CLIENT, d.dcid)) == held
    requires |held| <= 1 && (forall x <- held :: |x| <= 200) && |packet| <= 200
    requires env.limits.maxPendingHandshakes > 0 && env.limits.maxPendingBytes >= 400
    requires |O.Offsets(ChunksWith(env, t, CLIENT, d, chunks, 0))| <= R.MAX_CRYPTO_FRAGMENTS
    ensures WithinLimits(env, t, CLIENT, packet, d, chunks, 0)
  {
    hide TableOk, Total, Sizes, ChunksWith, O.Offsets, Replays, R.Bounded;
    var key := (CLIENT, d.dcid);
    PendingAtOk(env, t, CLIENT, d.dcid, 0);
    assert PendingAt(t, CLIENT, d.dcid, 0).datagrams == held;
    assert t.pending - {key} == map[];
    NothingHeld();
    if |held| == 1 {
      assert held[..0] == [];
      assert Lengths(held) == |held[0]|;
    }
    if t.pending == map[] {
      assert |t.pending| == 0;
    }
  }

  lemma NothingHeld()
    ensures Total(Sizes(map[])) == 0
  {
    assert Sizes(map[]) == map[];
  }

  lemma ChunksHeld(env: Env, t: Table, d: P.Decrypted, chunks: seq<Chunk>)
    requires TableOk(env, t)
    ensures AllChunks(env.primitives, HeldAt(t, (CLIENT, d.dcid))).Some?
    ensures ChunksWith(env, t, CLIENT, d, chunks, 0) == AllChunks(env.primitives, HeldAt(t, (CLIENT, d.dcid))).value + chunks
  {
    hide TableOk, AllChunks, R.InsertAll, R.ClientHello;
    PendingAtOk(env, t, CLIENT, d.dcid, 0);
  }

  lemma OneHeld(env: Env, packet: seq<byte>, c: Chunk, scid: Cid)
    requires PacketChunks(env.primitives, packet) == Some(([c], scid))
    ensures AllChunks(env.primitives, [packet]) == Some([c]) && SourceIds(env.primitives, [packet]) <= {scid}
    ensures AllChunks(env.primitives, []) == Some([])
  {
    hide PacketChunks;
    assert [packet][..0] == [];
    assert [] + [c] == [c];
  }

  lemma HalvesCover(msg: seq<byte>, a: Chunk, b: Chunk)
    requires |msg| == 42 && a == Chunk(0, msg[..20]) && b == Chunk(20, msg[20..])
    ensures !R.Covered([a], 41) && forall q: nat | q < 42 :: R.Covered([a, b], q)
    ensures |O.Offsets([a])| <= R.MAX_CRYPTO_FRAGMENTS && |O.Offsets([a, b])| <= R.MAX_CRYPTO_FRAGMENTS
    ensures R.Agrees(a, msg) && R.Agrees(b, msg)
  {
    assert a in [a, b] && b in [a, b];
    forall q: nat | q < 42 ensures R.Covered([a, b], q) {
      assert R.Covers(a, q) || R.Covers(b, q);
    }
    O.SubsetFits(O.Offsets([a]), {20});
    O.SubsetFits(O.Offsets([a, b]), {20});
  }

  lemma ArrivedSoFar(env: Env, events: seq<Event>, packet: seq<byte>, msg: seq<byte>)
    requires OneStream(env.primitives, events, CLIENT, [1], msg) && IsPiece(env.primitives, packet, [1], msg)
    ensures OneStream(env.primitives, events + [Sent(packet)], CLIENT, [1], msg)
    ensures ArrivedFrom(events + [Sent(packet)], CLIENT) == ArrivedFrom(events, CLIENT) + [packet]
  {
    hide IsPiece, ArrivedFrom;
    ArrivesNext(events, Sent(packet), CLIENT);
  }

  lemma {:induction false} WholeIsSame<T(!new)>(a: seq<T>, b: seq<T>)
    requires Subsequence(a, b)
    ensures |a| <= |b| && (|a| == |b| ==> a == b)
    decreases |b|
  {
    if a != [] {
      if Subsequence(a, b[..|b| - 1]) {
        WholeIsSame(a, b[..|b| - 1]);
      } else {
        WholeIsSame(a[..|a| - 1], b[..|b| - 1]);
        assert a == a[..|a| - 1] + [a[|a| - 1]];
        assert b == b[..|b| - 1] + [b[|b| - 1]];
      }
    }
  }

  lemma PieceWaits(env: Env, t: Table, before: seq<Event>, carried: seq<seq<byte>>, lone: Lone, hello: Hello.Hello)
    returns (p: Pending)
    requires Initial(t) && OnlyPath(Reached(env, t, before), carried) && Reached(env, t, before).pending == map[]
    requires hello.Valid() && |hello.Write()| == 42 && Piece(env, lone, hello.Write())
    requires lone.chunk == Chunk(0, hello.Write()[..20])
    requires env.limits.maxPendingHandshakes > 0 && env.limits.maxPendingBytes >= 400
    requires OneStream(env.primitives, before + [Sent(lone.Packet(env.primitives))], CLIENT, [1], hello.Write())
    ensures p.datagrams == [lone.Packet(env.primitives)]
    ensures Run(env, t, before + [Sent(lone.Packet(env.primitives))]) ==
            Reached(env, t, before).(pending := map[(CLIENT, [1]) := p])
  {
    hide Piece, OnlyPath, Opens, Initial, TableOk, Run, Step, Lone.Valid, OneStream, Hello.Hello.Write, Hello.Hello.Valid, Hello.Hello.Host,
      WithinLimits, O.Offsets, R.Covered, R.Agrees, AllChunks, PacketChunks, SourceIds, RouteForSni, Establish, ChunksWith,
      P.Primitives.Lawful, IsPiece;
    var mid := Reached(env, t, before);
    assert lone.Valid() && env.primitives.Lawful() && lone.Dcid() == [1] && |lone.Packet(env.primitives)| <= 200 by {
      PieceFacts(env, lone, hello.Write());
    }
    var packet := lone.Packet(env.primitives);
    PieceIsPiece(env, lone, hello.Write());
    PieceOpens(env, mid, carried, lone, hello.Write());
    HalvesCover(hello.Write(), lone.chunk, Chunk(20, hello.Write()[20..]));
    ChunksHeld(env, mid, lone.Opened(), [lone.chunk]);
    OneHeld(env, packet, lone.chunk, lone.Scid());
    assert ChunksWith(env, mid, CLIENT, lone.Opened(), [lone.chunk], 0) == [lone.chunk];
    PieceFits(env, mid, packet, lone.Opened(), [lone.chunk], []);
    p := ReachableRoutes(env, t, before, Sent(packet), lone.Opened(), [lone.chunk], hello, hello.Write());
    RunOneMore(env, t, before, Sent(packet));
  }

  lemma PieceFacts(env: Env, lone: Lone, msg: seq<byte>)
    requires Piece(env, lone, msg)
    ensures lone.Valid() && env.primitives.Lawful() && lone.Dcid() == [1] && |lone.Scid()| == 17
    ensures |lone.Packet(env.primitives)| <= 200
  {
    hide Lone.Valid, P.Primitives.Lawful, R.Agrees;
  }

  lemma TwoSourceIds(primitives: P.Primitives, first: seq<byte>, packet: seq<byte>, c: Chunk, d: Chunk, s: Cid)
    requires PacketChunks(primitives, first) == Some(([c], s)) && PacketChunks(primitives, packet) == Some(([d], s))
    ensures SourceIds(primitives, [first, packet]) <= {s}
  {
    hide PacketChunks;
    assert [first, packet][..1] == [first] && [first][..0] == [];
    assert SourceIds(primitives, [first]) <= {s};
  }

  lemma FewRequested(p: Pending, s: Cid)
    requires p.initialDcid == [1] && p.clientCids <= {s}
    ensures |p.Requested()| <= 2
  {
    SubsetSize(p.Requested(), {[1], s});
  }

  /** The second piece completes the handshake, and both go out at the end. */
  lemma PieceJoins(env: Env, t: Table, before: seq<Event>, carried: seq<seq<byte>>, q: Pending, first: seq<byte>,
                   lone: Lone, hello: Hello.Hello)
    requires Initial(t) && OnlyPath(Reached(env, t, before), carried)
    requires Reached(env, t, before).pending == map[(CLIENT, [1]) := q] && q.datagrams == [first] && |first| <= 200
    requires hello.Valid() && |hello.Write()| == 42 && hello.Host() == None && Piece(env, lone, hello.Write())
    requires lone.chunk == Chunk(20, hello.Write()[20..])
    requires PacketChunks(env.primitives, first) == Some(([Chunk(0, hello.Write()[..20])], lone.Scid()))
    requires env.limits.maxPendingHandshakes > 0 && env.limits.maxPendingBytes >= 400
    requires env.limits.maxCidsPerPath >= 2 && env.idleTimeout > 0
    requires OneStream(env.primitives, before + [Sent(lone.Packet(env.primitives))], CLIENT, [1], hello.Write())
    ensures OnPath(Run(env, t, before + [Sent(lone.Packet(env.primitives))]).toBackend, 0, CLIENT) ==
            carried + [first, lone.Packet(env.primitives)]
  {
    hide Piece, OnlyPath, Opens, Initial, TableOk, Run, Step, Lone.Valid, OneStream, Hello.Hello.Write, Hello.Hello.Valid, Hello.Hello.Host,
      WithinLimits, O.Offsets, R.Covered, R.Agrees, AllChunks, PacketChunks, SourceIds, RouteForSni, Establish, ChunksWith,
      P.Primitives.Lawful, IsPiece, OpenTo, Pending.Requested, OnPath;
    var mid := Reached(env, t, before);
    PieceFacts(env, lone, hello.Write());
    var packet := lone.Packet(env.primitives);
    var half := Chunk(0, hello.Write()[..20]);
    PieceIsPiece(env, lone, hello.Write());
    PieceOpens(env, mid, carried, lone, hello.Write());
    HalvesCover(hello.Write(), half, lone.chunk);
    ChunksHeld(env, mid, lone.Opened(), [lone.chunk]);
    OneHeld(env, first, half, lone.Scid());
    assert ChunksWith(env, mid, CLIENT, lone.Opened(), [lone.chunk], 0) == [half] + [lone.chunk] == [half, lone.chunk];
    PieceFits(env, mid, packet, lone.Opened(), [lone.chunk], [first]);
    var p := ReachableRoutes(env, t, before, Sent(packet), lone.Opened(), [lone.chunk], hello, hello.Write());
    RunOneMore(env, t, before, Sent(packet));
    assert p.datagrams == [first] + [packet] == [first, packet];
    TwoSourceIds(env.primitives, first, packet, half, lone.chunk, lone.Scid());
    FewRequested(p, lone.Scid());
    PathIsOpen(mid, carried);
    ExampleRoute(mid.config, SERVER, CLIENT);
    var rest := WithoutPending(mid, (CLIENT, [1]));
    SamePath(mid, rest, carried);
    JoinFlushes(env, rest, carried, p);
  }

  lemma PathIsOpen(t: Table, carried: seq<seq<byte>>)
    requires OnlyPath(t, carried)
    ensures OpenTo(t.config, SERVER)
  {
    hide OpenTo, OnPath;
  }

  lemma SamePath(t: Table, t': Table, carried: seq<seq<byte>>)
    requires OnlyPath(t, carried) && t' == t.(pending := t'.pending)
    ensures OnlyPath(t', carried)
  {
    hide OpenTo, OnPath, Connection.PathKey;
  }

  /** Room enough, and a hello cut in two, with an Initial for each half. */
  ghost predicate Ready(env: Env, t: Table, hello: Hello.Hello, a: Lone, b: Lone) {
    Initial(t) && OpenTo(t.config, SERVER) && env.limits.maxPaths > 0 && env.limits.maxPendingHandshakes > 0 &&
    env.limits.maxPendingBytes >= 400 && env.limits.maxCidsPerPath >= 2 && env.idleTimeout > 0 &&
    hello.Valid() && |hello.Write()| == 42 && hello.Host() == None && a.Scid() == b.Scid() &&
    Piece(env, a, hello.Write()) && a.chunk == Chunk(0, hello.Write()[..20]) &&
    Piece(env, b, hello.Write()) && b.chunk == Chunk(20, hello.Write()[20..])
  }

  lemma Start() returns (env: Env, t: Table, hello: Hello.Hello, a: Lone, b: Lone)
    ensures Ready(env, t, hello, a, b)
  {
    hide OpenTo, Plainly, Hello.Hello.Write, Hello.Hello.Valid, Hello.Hello.Host, Lone.Valid, P.Primitives.Lawful, P.Plain.Protect,
      R.Agrees, R.Covered, O.Offsets, Config.Specified, Decodable;
    hello := ShortHello();
    var msg := hello.Write();
    var config := ExampleConfig(SERVER);
    a := ExampleLone(Chunk(0, msg[..20]), Decodable());
    b := ExampleLone(Chunk(20, msg[20..]), Decodable());
    HalvesCover(msg, a.chunk, b.chunk);
    env := Env(Limits(1, 1, 400, 2), 1, Plainly());
    t := Table(config, 0, map[], {}, map[], [], [], multiset{}, 0);
  }

  lemma ShortHello() returns (hello: Hello.Hello)
    ensures hello.Valid() && |hello.Write()| == 42 && hello.Host() == None
  {
    NamelessIsShort();
    hello := Nameless();
  }

  /** A datagram that opens the path, and half a handshake, which waits. */
  lemma FirstHalf(env: Env, t: Table, hello: Hello.Hello, a: Lone, b: Lone) returns (events: seq<Event>, q: Pending)
    requires Ready(env, t, hello, a, b)
    ensures var first := a.Packet(env.primitives);
            ArrivedFrom(events, CLIENT) == [Short(), first] && q.datagrams == [first] &&
            OneStream(env.primitives, events, CLIENT, [1], hello.Write())
    ensures OnlyPath(Run(env, t, events), [Short()]) && Run(env, t, events).pending == map[(CLIENT, [1]) := q]
  {
    hide Piece, OnlyPath, Initial, TableOk, Run, Step, OneStream, Hello.Hello.Write, Hello.Hello.Valid, Hello.Hello.Host, OpenTo,
      PacketChunks, IsPiece, ArrivedFrom, Short, Lone.Valid, P.Primitives.Lawful;
    PieceFacts(env, a, hello.Write());
    PieceIsPiece(env, a, hello.Write());
    ShortIsPiece(env, hello.Write());
    NothingArrived(env, hello.Write());
    var first := a.Packet(env.primitives);
    var begun := [] + [Sent(Short())];
    RunNothing(env, t);
    RunOneMore(env, t, [], Sent(Short()));
    ArrivedSoFar(env, [], Short(), hello.Write());
    ShortOpens(env, t);
    events := begun + [Sent(first)];
    ArrivedSoFar(env, begun, first, hello.Write());
    q := PieceWaits(env, t, begun, [Short()], a, hello);
    SamePath(Reached(env, t, begun), Run(env, t, events), [Short()]);
    assert [] + [Short()] + [first] == [Short(), first];
  }

  /** Another datagram on the path, and the other half. */
  lemma SecondHalf(env: Env, t: Table, hello: Hello.Hello, a: Lone, b: Lone, before: seq<Event>, q: Pending)
    returns (events: seq<Event>)
    requires Ready(env, t, hello, a, b) && q.datagrams == [a.Packet(env.primitives)]
    requires ArrivedFrom(before, CLIENT) == [Short(), a.Packet(env.primitives)]
    requires OneStream(env.primitives, before, CLIENT, [1], hello.Write())
    requires OnlyPath(Run(env, t, before), [Short()]) && Run(env, t, before).pending == map[(CLIENT, [1]) := q]
    ensures var first, second := a.Packet(env.primitives), b.Packet(env.primitives);
            ArrivedFrom(events, CLIENT) == [Short(), first, Short(), second] &&
            OnPath(Run(env, t, events).toBackend, 0, CLIENT) == [Short(), Short(), first, second]
  {
    hide Piece, OnlyPath, Initial, TableOk, Run, Step, OneStream, Hello.Hello.Write, Hello.Hello.Valid, Hello.Hello.Host, OpenTo,
      PacketChunks, IsPiece, ArrivedFrom, Short, Lone.Valid, P.Primitives.Lawful, OnPath;
    PieceFacts(env, a, hello.Write());
    PieceFacts(env, b, hello.Write());
    PieceIsPiece(env, a, hello.Write());
    PieceIsPiece(env, b, hello.Write());
    ShortIsPiece(env, hello.Write());
    var first, second := a.Packet(env.primitives), b.Packet(env.primitives);
    var more := before + [Sent(Short())];
    ArrivedSoFar(env, before, Short(), hello.Write());
    RunOneMore(env, t, before, Sent(Short()));
    ShortIsForwarded(env, Run(env, t, before), [Short()]);
    events := more + [Sent(second)];
    ArrivedSoFar(env, more, second, hello.Write());
    PieceJoins(env, t, more, [Short()] + [Short()], q, first, b, hello);
    assert [Short(), first] + [Short()] + [second] == [Short(), first, Short(), second];
    assert [Short()] + [Short()] + [first, second] == [Short(), Short(), first, second];
  }

  /**
   Four datagrams from one client: one that opens the path, half a handshake, another on the path, and the
   other half. The path carries the two halves last.
   */
  lemma JoinBreaksOrder() returns (env: Env, t: Table, events: seq<Event>)
    ensures Initial(t) && !OrderedOn(events, Run(env, t, events), 0)
  {
    hide Piece, OnlyPath, Initial, Run, OneStream, Hello.Hello.Write, Hello.Hello.Valid, Hello.Hello.Host, OpenTo, OnPath, Subsequence,
      ArrivedFrom, Short, Lone.Valid, P.Primitives.Lawful;
    var hello, a, b, before, q;
    env, t, hello, a, b := Start();
    PieceFacts(env, a, hello.Write());
    PieceFacts(env, b, hello.Write());
    before, q := FirstHalf(env, t, hello, a, b);
    events := SecondHalf(env, t, hello, a, b, before, q);
    var first, second := a.Packet(env.primitives), b.Packet(env.primitives);
    ShortIsNot(env, a, hello.Write());
    var carried, arrived := [Short(), Short(), first, second], [Short(), first, Short(), second];
    assert carried[1] != arrived[1];
    if OrderedOn(events, Run(env, t, events), 0) {
      WholeIsSame(carried, arrived);
      assert false;
    }
  }

  lemma ShortIsNot(env: Env, lone: Lone, msg: seq<byte>)
    requires Piece(env, lone, msg)
    ensures Short() != lone.Packet(env.primitives)
  {
    hide Decodable, Lone.Packet, KeyId;
    PacketHasKey(env, lone, msg);
    ShortHasNone(env);
  }

  lemma PacketHasKey(env: Env, lone: Lone, msg: seq<byte>)
    requires Piece(env, lone, msg)
    ensures KeyId(env.primitives, lone.Packet(env.primitives)).Some?
  {
    hide P.Plain.Protect, P.Plain.Valid, P.Decrypt, Frame.Valid, WellFormed, Encode, Chunks, R.Agrees, P.Primitives.Lawful;
    P.RoundTrip(env.primitives, lone.plain, None, []);
    assert lone.Packet(env.primitives) + [] == lone.Packet(env.primitives);
  }

  lemma ShortHasNone(env: Env)
    ensures KeyId(env.primitives, Short()).None?
  {
    hide Decodable;
    assert Short()[0] == 0x40;
  }

  lemma NothingArrived(env: Env, msg: seq<byte>)
    ensures OneStream(env.primitives, [], CLIENT, [1], msg) && ArrivedFrom([], CLIENT) == []
  {
    hide IsPiece;
  }

  lemma RunNothing(env: Env, t: Table)
    ensures Run(env, t, []) == t
  {
  }
}
