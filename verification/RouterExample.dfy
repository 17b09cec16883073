/**
 A router that has just started and one Initial that brings it a whole ClientHello: what then happens,
 for any such Initial, and a concrete one.
 */
module RouterExample {
  import opened Wrappers
  import opened Bytes
  import opened Addresses
  import opened Routing
  import opened Frames
  import opened RouterTable
  import opened RouterInvariant
  import opened RouterHandshake
  import QuicLb
  import L = LongHeader
  import P = InitialProtection
  import R = CryptoReassembly
  import Hello = ClientHello
  import V = Varint

  function Zeros(n: nat): (s: seq<byte>)
    ensures |s| == n
  {
    seq(n, _ => 0)
  }

  /** Primitives that hide nothing, and are lawful all the same. */
  function Plainly(): P.Primitives {
    P.Primitives(
      (_: seq<byte>) => P.Keys([], Zeros(12), []),
      (_: seq<byte>, _: seq<byte>) => Zeros(5),
      (_: seq<byte>, _: seq<byte>, _: seq<byte>, text: seq<byte>) => text + Zeros(16),
      (_: seq<byte>, _: seq<byte>, _: seq<byte>, text: seq<byte>) => if |text| < 16 then None else Some(text[..|text| - 16]))
  }

  lemma PlainlyIsLawful()
    ensures Plainly().Lawful()
  {
    forall text: seq<byte> ensures (text + Zeros(16))[..|text|] == text {
    }
  }

  /** A ClientHello without a name. */
  function Nameless(): Hello.Hello {
    Hello.Hello(Zeros(34), [], [], [], None, [])
  }

  lemma NamelessIsShort()
    ensures Nameless().Valid() && |Nameless().Write()| == 42 && Nameless().Host() == None
  {
    hide Hello.Write16;
  }

  /** A backend by QUIC-LB with a transparent cipher, and one by default, open to all. */
  ghost predicate OpenTo(c: LoadedConfig, addr: SocketAddr) {
    |c.quicLb| == 1 && c.quicLb[0].codec.configId == 1 && c.quicLb[0].servers == map[0 := V4(1, 1)] &&
    (forall block :: c.quicLb[0].codec.cipher.decrypt(block) == block) &&
    c.maxLifetime == None && c.rules == [] && c.defaultRule.acl == Acl([], Accept) && c.defaultRule.timeout == None &&
    c.defaultRule.backend == Udp(addr)
  }

  function Decodable(): (cid: Cid)
    ensures |cid| == 17
  {
    [48] + Zeros(16)
  }

  lemma DecodableDecodes(c: LoadedConfig, addr: SocketAddr)
    requires OpenTo(c, addr)
    ensures QuicLb.Lookup(c.quicLb, Decodable()) == Some(V4(1, 1))
  {
    hide QuicLb.Lookup, QuicLb.LbConfig.Backend, Decodable, Zeros;
    BackendOfDecodable(c.quicLb[0], Decodable());
    assert c.quicLb[0] in c.quicLb;
    QuicLb.LookupFinds(c.quicLb, Decodable(), V4(1, 1));
  }

  lemma BackendOfDecodable(lb: QuicLb.LbConfig, cid: Cid)
    requires lb.codec.configId == 1 && 0 in lb.servers && lb.servers[0] == V4(1, 1) && cid == Decodable()
    requires lb.codec.cipher.decrypt(cid[1..]) == cid[1..]
    ensures lb.Backend(cid) == Some(V4(1, 1))
  {
    assert cid[0] == 48 && cid[1] == cid[2] == cid[3] == cid[4] == 0;
  }

  /** What a sender puts into one Initial with a single CRYPTO frame. */
  datatype Lone = Lone(plain: P.Plain, frame: Frame, chunk: Chunk) {

    ghost predicate Valid() {
      plain.Valid() && frame.Valid() && WellFormed([frame]) && plain.payload == Encode([frame]) && Chunks([frame]) == [chunk]
    }

    function Dcid(): Cid {
      plain.layout.cids.dcid
    }

    function Scid(): Cid {
      plain.layout.cids.scid
    }

    /** What it decrypts to. */
    function Opened(): P.Decrypted {
      P.Decrypted(Dcid(), Scid(), plain.payload)
    }

    ghost function Packet(c: P.Primitives): seq<byte>
      requires c.Lawful() && Valid()
    {
      plain.Protect(c, c.keys(plain.layout.cids.dcid))
    }
  }

  /** The router has room for one such datagram. */
  ghost predicate Roomy(env: Env, size: nat) {
    env.limits.maxPendingHandshakes > 0 && size <= env.limits.maxPendingBytes && size <= MAX_PENDING_BYTES
  }

  lemma LoneOpens(env: Env, t: Table, lone: Lone)
    requires OwnerOf(t.connections, lone.Dcid()).None? && QuicLb.Lookup(t.config.quicLb, lone.Dcid()).None?
    requires lone.Valid() && env.primitives.Lawful()
    ensures Opens(env, t, lone.Packet(env.primitives), lone.Opened(), [lone.chunk])
    ensures lone.Packet(env.primitives) != [] && lone.Packet(env.primitives)[0] >= 0x80
  {
    hide P.Decrypt, Crypto, Encode, Chunks, P.Plain.Protect, L.Parse, QuicLb.Lookup, OwnerOf, P.Plain.Valid, P.Primitives.Lawful,
      Frame.Valid, WellFormed;
    var c := env.primitives;
    var packet := lone.Packet(c);
    P.RoundTrip(c, lone.plain, None, []);
    assert packet + [] == packet;
    ParsesWhatIsWritten([lone.frame]);
    DecryptedIds(c, packet);
  }

  /** Its chunk is all of the hello. */
  lemma WholeHello(msg: seq<byte>)
    ensures R.AllAgree([Chunk(0, msg)], msg) && forall q: nat | q < |msg| :: R.Covered([Chunk(0, msg)], q)
    ensures R.InsertAll(R.EMPTY, [Chunk(0, msg)]).Success?
  {
    var c := Chunk(0, msg);
    assert c in [c] && [c][1..] == [];
  }

  lemma LonePieces(env: Env, t: Table, peer: SocketAddr, packet: seq<byte>, d: P.Decrypted, hello: Hello.Hello, now: nat)
    requires Initial(t) && hello.Valid() && PacketChunks(env.primitives, packet) == Some(([Chunk(0, hello.Write())], d.scid))
    requires Roomy(env, |packet|)
    ensures Pieces(env, t, peer, packet, d, [Chunk(0, hello.Write())], now, hello, hello.Write())
    ensures Room(env, t, peer, packet, d, [Chunk(0, hello.Write())], now)
    ensures AllIn(env, t, peer, d, [Chunk(0, hello.Write())], now, hello)
  {
    hide R.AllAgree, R.Covered, R.InsertAll, Hello.Hello.Write, Hello.Hello.Valid, PacketChunks, Normalize, TableOk;
    InitialOk(env, t);
    WholeHello(hello.Write());
    var chunks := [Chunk(0, hello.Write())];
    assert ChunksWith(env, t, peer, d, chunks, now) == [] + chunks == chunks;
    assert Sizes(t.pending) == map[];
  }

  /** It is registered under its own ids. */
  lemma LoneArrives(env: Env, t: Table, peer: SocketAddr, lone: Lone, hello: Hello.Hello, now: nat)
    requires Initial(t) && lone.Valid() && env.primitives.Lawful() && Roomy(env, |lone.Packet(env.primitives)|)
    requires hello.Valid() && lone.chunk == Chunk(0, hello.Write())
    requires QuicLb.Lookup(t.config.quicLb, lone.Dcid()).None?
    ensures var fate := ClientFate(env, t, peer, lone.Packet(env.primitives), now);
            fate.Arrives? && fate.route == RouteForSni(t.config, peer, hello.Host()) &&
            fate.p.initialDcid == lone.Dcid() && fate.p.clientCids == {lone.Scid()} - {[]} && fate.spent.Some?
  {
    hide Lone.Valid, Opens, Pieces, Room, AllIn, HandshakeFate, ClientFate, RouteForSni, Hello.Hello.Write, Hello.Hello.Host,
      Hello.Hello.Valid, PacketChunks, Normalize, TableOk, QuicLb.Lookup, Roomy, P.Primitives.Lawful;
    var packet := lone.Packet(env.primitives);
    var d := lone.Opened();
    InitialOk(env, t);
    OwnerIsHere(t.connections, lone.Dcid());
    LoneOpens(env, t, lone);
    OpensHandshake(env, t, peer, packet, d, [lone.chunk], now);
    LonePieces(env, t, peer, packet, d, hello, now);
    HandshakeRoutesByHostName(env, t, peer, packet, d, [lone.chunk], now, hello, hello.Write());
    HandshakeKey(env, t, peer, packet, d, [lone.chunk], now);
    FirstIds(env, t, peer, packet, d, [lone.chunk], now);
  }

  lemma FirstIds(env: Env, t: Table, peer: SocketAddr, packet: seq<byte>, d: P.Decrypted, chunks: seq<Chunk>, now: nat)
    requires Initial(t)
    ensures var fate := HandshakeFate(env, t, peer, packet, d, chunks, now);
            fate.Arrives? ==> fate.p.clientCids == {d.scid} - {[]}
  {
    hide RouteForSni, Normalize, PendingBytes, R.InsertAll, R.ClientHello;
  }

  lemma FirstIsAccepted(env: Env, t: Table, p: Pending, route: Route, io: Io)
    requires t.connections == map[] && route.backend.Udp? && env.limits.maxPaths > 0
    requires |p.Requested()| <= env.limits.maxCidsPerPath
    ensures Accepted(env, t, p, route, io) && Joined(t, p, route).None?
  {
    hide QuicLb.IsServer, Normalize, Pending.Requested;
    forall cid ensures OwnerOf(t.connections, cid).None? {
      OwnerIsHere(t.connections, cid);
    }
    assert p.Requested() - {} == p.Requested();
  }

  lemma TwoIds(p: Pending, dcid: Cid, scid: Cid)
    requires p.initialDcid == dcid && p.clientCids == {scid} - {[]} && scid != []
    ensures scid in p.Requested() && |p.Requested()| <= 2
  {
    SubsetSize(p.Requested(), {scid, dcid});
  }

  // ----- a concrete one

  lemma OneFrame(chunk: Chunk) returns (f: Frame)
    requires chunk.offset <= 42 && |chunk.data| <= 42
    ensures f.Valid() && WellFormed([f]) && |Encode([f])| == 3 + |chunk.data| && Chunks([f]) == [chunk]
  {
    hide V.Var.Encode;
    f := Frame(V.Var(6, 0), CryptoData(V.Var(chunk.offset, 0), V.Var(|chunk.data|, 0), chunk.data));
    assert [f][1..] == [];
    OneLength(f);
  }

  lemma OneLength(f: Frame)
    requires f.Valid() && f.body.CryptoData? && f.ty.log == f.body.offset.log == f.body.len.log == 0
    ensures |f.Encode()| == 3 + |f.body.data|
  {
    hide V.Var.Encode;
  }

  lemma SmallPlain(payload: seq<byte>, dcid: Cid, scid: Cid) returns (plain: P.Plain)
    requires 3 <= |payload| <= 45 && |dcid| < 256 && |scid| < 256
    ensures plain.Valid() && plain.payload == payload && plain.layout.token == [] && plain.numberLen == 1
    ensures plain.layout.cids.dcid == dcid && plain.layout.cids.scid == scid
  {
    plain := P.Plain(L.Layout(0xC0, L.Cids(1, 0, dcid, scid), V.Var(0, 0), [], V.Var(17 + |payload|, 1)), 0, 1, payload);
    assert Pow256(1) == 256;
  }

  lemma LayoutSize(l: L.Layout)
    requires l.Valid()
    ensures |l.Write()| <= 23 + |l.cids.dcid| + |l.cids.scid| + |l.token|
  {
    hide V.Var.Encode, L.WriteLong;
  }

  lemma ProtectedSize(c: P.Primitives, plain: P.Plain, keys: P.Keys)
    requires c.Lawful() && plain.Valid()
    ensures |plain.Protect(c, keys)| == |plain.layout.Write()| + plain.numberLen + |plain.payload| + P.TAG_LEN
  {
    hide P.Nonce, Xor, L.WriteLong, V.Var.Encode, P.MaskNumber;
    assert |plain.Sealed(c, keys)| == |plain.payload| + P.TAG_LEN;
  }

  lemma ExampleLone(chunk: Chunk, scid: Cid) returns (lone: Lone)
    requires chunk.offset <= 42 && |chunk.data| <= 42 && |scid| == 17
    ensures lone.Valid() && lone.chunk == chunk && lone.Dcid() == [1] && lone.Scid() == scid
    ensures Plainly().Lawful() && |lone.Packet(Plainly())| <= 200
  {
    hide P.Primitives.Lawful, P.Plain.Protect, P.Plain.Valid, L.Layout.Write, Frame.Valid, WellFormed, Encode, Chunks, Plainly;
    PlainlyIsLawful();
    var frame := OneFrame(chunk);
    var plain := SmallPlain(Encode([frame]), [1], scid);
    lone := Lone(plain, frame, chunk);
    ProtectedSize(Plainly(), plain, Plainly().keys([1]));
    assert plain.layout.Valid() by {
      ValidLayout(plain);
    }
    LayoutSize(plain.layout);
  }

  lemma ValidLayout(plain: P.Plain)
    requires plain.Valid()
    ensures plain.layout.Valid()
  {
  }

  lemma ExampleConfig(addr: SocketAddr) returns (c: LoadedConfig)
    ensures OpenTo(c, addr) && c.Specified()
  {
    var lb := QuicLb.LbConfig(QuicLb.Codec(1, QuicLb.Cipher(b => b, b => b)), map[0 := V4(1, 1)]);
    var config := Config([lb], None, None, [], Routing.Rule(_ => false, Udp(addr), Acl([], Accept), None));
    assert config.Valid();
    c := config;
  }

  lemma ExampleRoute(c: LoadedConfig, addr: SocketAddr, peer: SocketAddr)
    requires OpenTo(c, addr)
    ensures RouteForSni(c, peer, None) == Success(Route(Udp(addr), None))
    ensures QuicLb.Lookup(c.quicLb, [1]).None?
  {
  }

  lemma EnoughRoom(env: Env, size: nat)
    requires env.limits.maxPendingHandshakes > 0 && size <= 200 <= env.limits.maxPendingBytes
    ensures Roomy(env, size)
  {
  }

  /** A router that has room for the example, and the example. */
  lemma ExampleStart() returns (env: Env, t: Table, lone: Lone)
    ensures Initial(t) && OpenTo(t.config, V4(2, 2)) && t.config.Specified()
    ensures lone.Valid() && lone.chunk == Chunk(0, Nameless().Write()) && env.primitives.Lawful()
    ensures |lone.Packet(env.primitives)| <= 200 && Roomy(env, |lone.Packet(env.primitives)|)
    ensures lone.Dcid() == [1] && lone.Scid() == Decodable()
    ensures env.limits.maxPaths > 0 && env.limits.maxCidsPerPath >= 2
  {
    hide Roomy, Lone.Valid, OpenTo, Decodable, Plainly, Hello.Hello.Write, P.Primitives.Lawful, Config.Specified,
      P.Plain.Protect, Nameless;
    NamelessIsShort();
    var config := ExampleConfig(V4(2, 2));
    lone := ExampleLone(Chunk(0, Nameless().Write()), Decodable());
    env := Env(Limits(1, 1, 200, 2), 1, Plainly());
    t := Table(config, 0, map[], {}, map[], [], [], multiset{}, 0);
    EnoughRoom(env, |lone.Packet(env.primitives)|);
  }
}
