/**
 Where what the router sends comes from: each datagram it forwards or buffers is one that arrived, once
 and not twice, handshakes are flushed in the order of arrival, and replies keep the order too.
 */
module RouterProvenance {
  import opened Wrappers
  import opened Bytes
  import opened Addresses
  import opened Routing
  import opened Totals
  import opened Frames
  import opened RouterTable
  import opened RouterInvariant
  import opened RouterConservation
  import opened RouterFate
  import opened RouterHandshake
  import opened RouterPinning
  import QuicLb
  import L = LongHeader

  // ----- subsequences of a growing sequence

  /** a without its last element comes from b without its last, or all of a does. */
  ghost predicate Subsequence<T(!new)>(a: seq<T>, b: seq<T>)
    decreases |b|
  {
    a == [] ||
    (b != [] && ((a[|a| - 1] == b[|b| - 1] && Subsequence(a[..|a| - 1], b[..|b| - 1])) || Subsequence(a, b[..|b| - 1])))
  }

  lemma SubsequenceLater<T(!new)>(a: seq<T>, b: seq<T>, x: T)
    requires Subsequence(a, b)
    ensures Subsequence(a, b + [x]) && Subsequence(a + [x], b + [x])
  {
    assert (b + [x])[..|b|] == b && (a + [x])[..|a|] == a;
  }

  lemma {:induction false} SubsequencePrefix<T(!new)>(a: seq<T>, n: nat, b: seq<T>)
    requires Subsequence(a, b) && n <= |a|
    ensures Subsequence(a[..n], b)
    decreases |b|
  {
    if a != [] && n < |a| {
      var shorter := b[..|b| - 1];
      if Subsequence(a, shorter) {
        SubsequencePrefix(a, n, shorter);
      } else {
        SubsequencePrefix(a[..|a| - 1], n, shorter);
        assert a[..|a| - 1][..n] == a[..n];
      }
      assert Subsequence(a[..n], shorter);
    } else {
      assert n == |a| ==> a[..n] == a;
    }
  }

  // ----- what arrived, and what is where

  ghost predicate IsFrom(e: Event, client: SocketAddr) {
    e.ClientDatagram? && Normalize(e.peer) == client
  }

  /** The datagrams that arrived from a client address, in order. */
  ghost function ArrivedFrom(events: seq<Event>, client: SocketAddr): seq<seq<byte>> {
    if events == [] then []
    else
      var before := ArrivedFrom(events[..|events| - 1], client);
      var e := events[|events| - 1];
      if IsFrom(e, client) then before + [e.packet] else before
  }

  /** The datagrams that arrived from upstream sockets, in order, with their connections. */
  ghost function Returned(events: seq<Event>): seq<(nat, seq<byte>)> {
    if events == [] then []
    else
      var before := Returned(events[..|events| - 1]);
      var e := events[|events| - 1];
      if e.BackendDatagram? then before + [(e.id, e.packet)] else before
  }

  function Replies(log: seq<Reply>): seq<(nat, seq<byte>)> {
    seq(|log|, i requires 0 <= i < |log| => (log[i].id, log[i].datagram))
  }

  /** The datagrams of a log that were forwarded for a client address, in order. */
  ghost function ForwardedFor(log: seq<Forwarded>, client: SocketAddr): seq<seq<byte>> {
    if log == [] then []
    else
      var before := ForwardedFor(log[..|log| - 1], client);
      var f := log[|log| - 1];
      if f.client == client then before + [f.datagram] else before
  }

  ghost function Copies(s: seq<seq<byte>>, datagram: seq<byte>): nat {
    multiset(s)[datagram]
  }

  ghost function CopiesPending(pending: map<PendingKey, Pending>, client: SocketAddr, datagram: seq<byte>): map<PendingKey, nat> {
    map key | key in pending :: if key.0 == client then Copies(pending[key].datagrams, datagram) else 0
  }

  /** How often a datagram of a client address was forwarded or is buffered. */
  ghost function Held(t: Table, client: SocketAddr, datagram: seq<byte>): nat {
    Copies(ForwardedFor(t.toBackend, client), datagram) + Total(CopiesPending(t.pending, client, datagram))
  }

  // ----- the invariant

  /** Every handshake holds datagrams of its client in the order in which they arrived. */
  ghost predicate InOrder(events: seq<Event>, pending: map<PendingKey, Pending>) {
    forall key <- pending :: Subsequence(pending[key].datagrams, ArrivedFrom(events, key.0))
  }

  /** No datagram was forwarded and is buffered more often than it arrived. */
  ghost predicate NoneMultiplied(events: seq<Event>, t: Table) {
    forall client, datagram :: Held(t, client, datagram) <= Copies(ArrivedFrom(events, client), datagram)
  }

  ghost predicate Sourced(events: seq<Event>, t: Table) {
    InOrder(events, t.pending) && NoneMultiplied(events, t) && Subsequence(Replies(t.toClient), Returned(events))
  }

  // ----- what one step forwards

  /** The step sent these datagrams on this connection for this client, in order, and nothing else upstream. */
  ghost predicate Sends(t: Table, t': Table, id: nat, client: SocketAddr, datagrams: seq<seq<byte>>) {
    t.toBackend <= t'.toBackend && |t'.toBackend| == |t.toBackend| + |datagrams| &&
    forall i | |t.toBackend| <= i < |t'.toBackend| ::
      t'.toBackend[i].id == id && t'.toBackend[i].client == client && t'.toBackend[i].datagram == datagrams[i - |t.toBackend|]
  }

  lemma {:induction false} ForwardedMore(log: seq<Forwarded>, more: seq<Forwarded>, client: SocketAddr, datagrams: seq<seq<byte>>,
                                         other: SocketAddr)
    requires |more| == |datagrams|
    requires forall i | 0 <= i < |more| :: more[i].client == client && more[i].datagram == datagrams[i]
    ensures ForwardedFor(log + more, other) == ForwardedFor(log, other) + if other == client then datagrams else []
    decreases |more|
  {
    hide ForwardedFor;
    if more == [] {
      assert log + more == log;
    } else {
      var n := |more| - 1;
      ForwardedMore(log, more[..n], client, datagrams[..n], other);
      assert log + more == (log + more[..n]) + [more[n]];
      ForwardedOne(log + more[..n], more[n], other);
      assert ForwardedFor(log, other) + datagrams == (ForwardedFor(log, other) + datagrams[..n]) + [datagrams[n]];
    }
  }

  lemma ForwardedOne(log: seq<Forwarded>, f: Forwarded, client: SocketAddr)
    ensures ForwardedFor(log + [f], client) ==
            if f.client == client then ForwardedFor(log, client) + [f.datagram] else ForwardedFor(log, client)
  {
    assert (log + [f])[..|log|] == log;
  }

  lemma JoinSends(env: Env, t: Table, id: nat, p: Pending, route: Route, io: Io) returns (n: nat)
    requires id in t.connections && t.connections[id].Client() == Normalize(p.clientAddr)
    ensures t.connections[id].Expired(io.t2, env.idleTimeout) ==> n == 0
    ensures n <= |p.datagrams| && Sends(t, Join(env, t, id, p, route, io).t, id, Normalize(p.clientAddr), p.datagrams[..n])
    ensures Join(env, t, id, p, route, io).t.pending == t.pending && Join(env, t, id, p, route, io).t.toClient == t.toClient
  {
    hide Connection.Expired, Registrable, Normalize;
    n := if t.connections[id].Expired(io.t2, env.idleTimeout) then 0 else SentCount(io.sends, |p.datagrams|);
  }

  lemma CreateSends(env: Env, t: Table, p: Pending, addr: SocketAddr, route: Route, io: Io) returns (n: nat)
    ensures n <= |p.datagrams| && Sends(t, Create(env, t, p, addr, route, io).t, t.nextId, Normalize(p.clientAddr), p.datagrams[..n])
    ensures Create(env, t, p, addr, route, io).t.pending == t.pending && Create(env, t, p, addr, route, io).t.toClient == t.toClient
  {
    hide QuicLb.IsServer, Pending.Requested, Normalize;
    n := if io.connects then SentCount(io.sends, |p.datagrams|) else 0;
  }

  lemma EstablishSends(env: Env, t: Table, p: Pending, route: Route, io: Io) returns (n: nat)
    ensures n <= |p.datagrams| && (!Accepted(env, t, p, route, io) ==> n == 0)
    ensures Sends(t, Establish(env, t, p, route, io).t, Joined(t, p, route).GetOr(t.nextId), Normalize(p.clientAddr), p.datagrams[..n])
    ensures Establish(env, t, p, route, io).t.pending == t.pending
    ensures Establish(env, t, p, route, io).t.toClient == t.toClient
  {
    hide Refusal, Join, Create, Existing, Normalize;
    n := 0;
    if route.backend.Udp? {
      var existing := Existing(t, Normalize(p.clientAddr), route.backend.addr);
      if Refusal(env, t, p, existing).None? {
        match existing
        case Some(id) => n := JoinSends(env, t, id, p, route, io);
        case None => n := CreateSends(env, t, p, route.backend.addr, route, io);
      }
    }
  }

  lemma ForwardSends(env: Env, t: Table, id: nat, peer: SocketAddr, packet: seq<byte>, scid: Cid, now: nat, sendOk: bool)
    returns (n: nat)
    ensures n <= 1 && Sends(t, ForwardClient(env, t, id, peer, packet, scid, now, sendOk).t, id, Normalize(peer), [packet][..n])
    ensures ForwardClient(env, t, id, peer, packet, scid, now, sendOk).t.pending == t.pending
    ensures ForwardClient(env, t, id, peer, packet, scid, now, sendOk).t.toClient == t.toClient
  {
    hide Connection.Expired, QuicLb.Lookup, OwnerOf, Normalize;
    var sent := ForwardClient(env, t, id, peer, packet, scid, now, sendOk).t.toBackend;
    n := if sent == t.toBackend then 0 else 1;
  }

  /** A client step: the handshake that may be over, the one that may wait, and what was sent. */
  datatype Moved = Moved(spent: Option<PendingKey>, waits: Option<(PendingKey, Pending)>, id: nat, sent: seq<seq<byte>>)

  /** The datagrams a step took up: those of a handshake that is over, with the new one after them. */
  ghost predicate Moves(t: Table, t': Table, client: SocketAddr, packet: seq<byte>, m: Moved) {
    (m.spent.Some? ==> m.spent.value.0 == client) && t'.toClient == t.toClient && Sends(t, t', m.id, client, m.sent) &&
    match m.waits
    case None =>
      t'.pending == Spend(t, m.spent).pending && m.sent <= Spent(t, m.spent) + [packet]
    case Some((key, p)) =>
      t'.pending == t.pending[key := p] && key.0 == client && p.datagrams == HeldAt(t, key) + [packet] && m.sent == []
  }

  lemma SendsSame(t: Table, mid: Table, t': Table, on: nat, client: SocketAddr, sent: seq<seq<byte>>)
    requires Sends(mid, t', on, client, sent) && mid.toBackend == t.toBackend
    ensures Sends(t, t', on, client, sent)
  {
  }

  lemma SendsNone(t: Table, t': Table, client: SocketAddr)
    requires t'.toBackend == t.toBackend
    ensures Sends(t, t', 0, client, [])
  {
  }

  lemma ClientMoves(env: Env, t: Table, peer: SocketAddr, packet: seq<byte>, io: Io) returns (m: Moved)
    requires TableOk(env, t)
    ensures Moves(t, ClientStep(env, t, peer, packet, io).t, Normalize(peer), packet, m)
  {
    hide TableOk, ClientFate, ForwardClient, Establish, Normalize, Accepted, Joined, Sends, HeldAt;
    var client := Normalize(peer);
    var t' := ClientStep(env, t, peer, packet, io).t;
    FateConcernsPeer(env, t, peer, packet, io.t1);
    if t'.toBackend == t.toBackend {
      SendsNone(t, t', client);
    }
    match ClientFate(env, t, peer, packet, io.t1)
    case Dropped(spent, reason, count) => m := Moved(spent, None, 0, []);
    case Along(id, scid) =>
      var n := ForwardSends(env, t, id, peer, packet, scid, io.t2, io.sends(0));
      m := Moved(None, None, id, [packet][..n]);
    case Waits(key, p) => m := Moved(None, Some((key, p)), 0, []);
    case Arrives(spent, p, route) =>
      if route.Success? {
        var mid := Spend(t, spent);
        var n := EstablishSends(env, mid, p, route.value, io);
        m := Moved(spent, None, Joined(mid, p, route.value).GetOr(t.nextId), p.datagrams[..n]);
        SendsSame(t, mid, t', m.id, client, m.sent);
      } else {
        m := Moved(spent, None, 0, []);
      }
    case Oversized => m := Moved(None, None, 0, []);
  }

  // ----- every step keeps the invariant

  lemma ArrivesNext(events: seq<Event>, e: Event, client: SocketAddr)
    ensures ArrivedFrom(events + [e], client) ==
            if IsFrom(e, client) then ArrivedFrom(events, client) + [e.packet] else ArrivedFrom(events, client)
    ensures Returned(events + [e]) ==
            if e.BackendDatagram? then Returned(events) + [(e.id, e.packet)] else Returned(events)
  {
    hide Normalize;
    assert (events + [e])[..|events|] == events;
  }

  lemma StillInOrder(events: seq<Event>, e: Event, pending: map<PendingKey, Pending>)
    requires InOrder(events, pending)
    ensures InOrder(events + [e], pending)
  {
    hide Subsequence, ArrivedFrom, Normalize;
    forall key | key in pending ensures Subsequence(pending[key].datagrams, ArrivedFrom(events + [e], key.0)) {
      ArrivesNext(events, e, key.0);
      if IsFrom(e, key.0) {
        SubsequenceLater(pending[key].datagrams, ArrivedFrom(events, key.0), e.packet);
      }
    }
  }

  /** The handshake with the new datagram after its own is in order too. */
  lemma TakenInOrder(events: seq<Event>, e: Event, t: Table, key: PendingKey)
    requires InOrder(events, t.pending) && IsFrom(e, key.0)
    ensures Subsequence(HeldAt(t, key) + [e.packet], ArrivedFrom(events + [e], key.0))
  {
    hide ArrivedFrom, Normalize;
    ArrivesNext(events, e, key.0);
    SubsequenceLater(HeldAt(t, key), ArrivedFrom(events, key.0), e.packet);
  }

  lemma CopiesAppend(a: seq<seq<byte>>, b: seq<seq<byte>>, datagram: seq<byte>)
    ensures Copies(a + b, datagram) == Copies(a, datagram) + Copies(b, datagram)
  {
  }

  lemma CopiesUpdate(pending: map<PendingKey, Pending>, key: PendingKey, p: Pending, client: SocketAddr, datagram: seq<byte>)
    ensures Total(CopiesPending(pending[key := p], client, datagram)) ==
            Total(CopiesPending(pending - {key}, client, datagram)) +
            if key.0 == client then Copies(p.datagrams, datagram) else 0
  {
    hide Total, Copies;
    var copies := CopiesPending(pending, client, datagram);
    var now := if key.0 == client then Copies(p.datagrams, datagram) else 0;
    assert CopiesPending(pending[key := p], client, datagram) == copies[key := now];
    assert CopiesPending(pending - {key}, client, datagram) == copies - {key};
    TotalUpdate(copies, key, now);
  }

  lemma CopiesHeld(t: Table, key: PendingKey, client: SocketAddr, datagram: seq<byte>)
    ensures Total(CopiesPending(t.pending, client, datagram)) ==
            Total(CopiesPending(t.pending - {key}, client, datagram)) +
            if key.0 == client then Copies(HeldAt(t, key), datagram) else 0
  {
    hide Total, CopiesPending;
    if key in t.pending {
      CopiesUpdate(t.pending, key, t.pending[key], client, datagram);
      assert t.pending[key := t.pending[key]] == t.pending;
    } else {
      assert t.pending - {key} == t.pending;
    }
  }

  lemma SentCopies(t: Table, t': Table, id: nat, client: SocketAddr, sent: seq<seq<byte>>, other: SocketAddr, datagram: seq<byte>)
    requires Sends(t, t', id, client, sent)
    ensures Copies(ForwardedFor(t'.toBackend, other), datagram) ==
            Copies(ForwardedFor(t.toBackend, other), datagram) + if other == client then Copies(sent, datagram) else 0
  {
    hide ForwardedFor, Copies;
    var log, more := t.toBackend, t'.toBackend[|t.toBackend|..];
    assert t'.toBackend == log + more;
    ForwardedMore(log, more, client, sent, other);
    CopiesAppend(ForwardedFor(log, other), if other == client then sent else [], datagram);
    CopiesNone(datagram);
  }

  lemma CopiesNone(datagram: seq<byte>)
    ensures Copies([], datagram) == 0
  {
  }

  lemma CopiesPrefix(a: seq<seq<byte>>, b: seq<seq<byte>>, datagram: seq<byte>)
    requires a <= b
    ensures Copies(a, datagram) <= Copies(b, datagram)
  {
    hide Copies;
    assert b == a + b[|a|..];
    CopiesAppend(a, b[|a|..], datagram);
  }

  /** A client step adds at most the datagram that arrived. */
  lemma MovesOne(t: Table, t': Table, client: SocketAddr, packet: seq<byte>, m: Moved, other: SocketAddr, datagram: seq<byte>)
    requires Moves(t, t', client, packet, m)
    ensures Held(t', other, datagram) <= Held(t, other, datagram) + if other == client then Copies([packet], datagram) else 0
  {
    hide Copies, ForwardedFor, CopiesPending, Total, HeldAt;
    SentCopies(t, t', m.id, client, m.sent, other, datagram);
    match m.waits
    case Some((key, p)) =>
      CopiesUpdate(t.pending, key, p, other, datagram);
      CopiesHeld(t, key, other, datagram);
      CopiesAppend(HeldAt(t, key), [packet], datagram);
      CopiesNone(datagram);
    case None =>
      CopiesPrefix(m.sent, Spent(t, m.spent) + [packet], datagram);
      CopiesAppend(Spent(t, m.spent), [packet], datagram);
      CopiesNone(datagram);
      if m.spent.Some? {
        CopiesHeld(t, m.spent.value, other, datagram);
      }
  }

  lemma ClientSourced(env: Env, t: Table, e: Event, events: seq<Event>)
    requires TableOk(env, t) && Sourced(events, t) && e.ClientDatagram?
    ensures Sourced(events + [e], Step(env, t, e).t)
  {
    hide TableOk, ClientStep, Normalize, Subsequence, Held, HeldAt, ArrivedFrom, Returned, Sends, Copies;
    var m := ClientMoves(env, t, e.peer, e.packet, e.io);
    var t' := Step(env, t, e).t;
    StillInOrder(events, e, t.pending);
    if m.waits.Some? {
      TakenInOrder(events, e, t, m.waits.value.0);
    }
    forall client, datagram
      ensures Held(t', client, datagram) <= Copies(ArrivedFrom(events + [e], client), datagram)
    {
      MovesOne(t, t', Normalize(e.peer), e.packet, m, client, datagram);
      ArrivesNext(events, e, client);
      CopiesAppend(ArrivedFrom(events, client), [e.packet], datagram);
      assert Held(t, client, datagram) <= Copies(ArrivedFrom(events, client), datagram);
    }
    assert InOrder(events + [e], t'.pending);
    ArrivesNext(events, e, Normalize(e.peer));
  }

  /** A backend step returns at most the datagram that arrived, on the connection it arrived for. */
  lemma BackendReturns(env: Env, t: Table, id: nat, packet: seq<byte>, now: nat, sendOk: bool)
    ensures var t' := BackendStep(env, t, id, packet, now, sendOk).t;
            t'.pending == t.pending && t'.toBackend == t.toBackend &&
            (Replies(t'.toClient) == Replies(t.toClient) || Replies(t'.toClient) == Replies(t.toClient) + [(id, packet)])
  {
    hide Learn, L.Parse, Connection.Expired;
    if L.Parse(packet).Success? && id in t.connections {
      var c := t.connections[id];
      var long := L.Parse(packet).value;
      var c1 := c.(lastSeen := now, initialKeyDcid := RetryKey(long).GetOr(c.initialKeyDcid));
      LearnLogs(env, t.(connections := t.connections[id := c1]), id, SourceId(long));
    }
  }

  lemma BackendSourced(env: Env, t: Table, e: Event, events: seq<Event>)
    requires Sourced(events, t) && e.BackendDatagram?
    ensures Sourced(events + [e], Step(env, t, e).t)
  {
    hide BackendStep, ArrivedFrom, Returned, Subsequence, Replies, Copies;
    BackendReturns(env, t, e.id, e.packet, e.now, e.sendOk);
    NothingFromClients(events, e, t, Step(env, t, e).t);
    ArrivesNext(events, e, V4(0, 0));
    SubsequenceLater(Replies(t.toClient), Returned(events), (e.id, e.packet));
  }

  lemma FewerCopies(t: Table, gone: set<PendingKey>, client: SocketAddr, datagram: seq<byte>)
    ensures Total(CopiesPending(t.pending - gone, client, datagram)) <= Total(CopiesPending(t.pending, client, datagram))
  {
    hide Total, Copies;
    var copies := CopiesPending(t.pending, client, datagram);
    TotalSplit(copies, gone);
    assert CopiesPending(t.pending - gone, client, datagram) == copies - gone;
  }

  /** Nothing comes from a client, nothing goes upstream, and handshakes at most go away. */
  lemma NothingFromClients(events: seq<Event>, e: Event, t: Table, t': Table)
    requires InOrder(events, t.pending) && NoneMultiplied(events, t) && !e.ClientDatagram?
    requires t'.toBackend == t.toBackend && t'.pending == t.pending - (t.pending.Keys - t'.pending.Keys)
    ensures InOrder(events + [e], t'.pending) && NoneMultiplied(events + [e], t')
  {
    hide Subsequence, ArrivedFrom, CopiesPending, Total, Copies, ForwardedFor;
    StillInOrder(events, e, t.pending);
    forall client, datagram
      ensures Held(t', client, datagram) <= Copies(ArrivedFrom(events + [e], client), datagram)
    {
      ArrivesNext(events, e, client);
      assert Held(t, client, datagram) <= Copies(ArrivedFrom(events, client), datagram);
      FewerCopies(t, t.pending.Keys - t'.pending.Keys, client, datagram);
    }
  }

  lemma QuietSourced(env: Env, t: Table, e: Event, events: seq<Event>)
    requires Sourced(events, t) && (e.Reload? || e.Cleanup?)
    ensures Sourced(events + [e], Step(env, t, e).t)
  {
    hide Stale, Connection.Expired, ArrivedFrom, Returned, Subsequence, Replies, Copies, Total;
    NothingFromClients(events, e, t, Step(env, t, e).t);
    ArrivesNext(events, e, V4(0, 0));
  }

  lemma StepSourced(env: Env, t: Table, e: Event, events: seq<Event>)
    requires TableOk(env, t) && Sourced(events, t)
    ensures Sourced(events + [e], Step(env, t, e).t)
  {
    hide TableOk, Step, Sourced;
    match e
    case ClientDatagram(_, _, _) => ClientSourced(env, t, e, events);
    case BackendDatagram(_, _, _, _) => BackendSourced(env, t, e, events);
    case _ => QuietSourced(env, t, e, events);
  }

  // ----- over a run

  /**
   Over a run: handshakes hold their client's datagrams in order of arrival; no datagram was forwarded
   and is buffered more often than it arrived from that client; and what went back to clients is, in
   order, what backends sent on those connections.
   */
  lemma {:induction false} RunSourced(env: Env, t: Table, before: seq<Event>, events: seq<Event>)
    requires TableOk(env, t) && Sourced(before, t)
    ensures Sourced(before + events, Run(env, t, events))
    decreases |events|
  {
    hide TableOk, Step, Sourced;
    if events == [] {
      assert before + events == before;
    } else {
      StepSourced(env, t, events[0], before);
      StepKeeps(env, t, events[0]);
      RunSourced(env, Step(env, t, events[0]).t, before + [events[0]], events[1..]);
      assert before + [events[0]] + events[1..] == before + events;
    }
  }

  lemma NothingYet(t: Table)
    requires Initial(t)
    ensures Sourced([], t)
  {
    forall client, datagram ensures Held(t, client, datagram) == 0 {
      assert CopiesPending(t.pending, client, datagram) == map[];
    }
    assert Replies(t.toClient) == [];
  }

  /** From the start on: traffic keeps to its path, and is what arrived. */
  lemma ReachableTraffic(env: Env, t: Table, events: seq<Event>)
    requires Initial(t)
    ensures Pinned(Run(env, t, events)) && Sourced(events, Run(env, t, events))
  {
    InitialOk(env, t);
    NothingYet(t);
    assert Pinned(t);
    hide TableOk, Pinned, Sourced, Initial;
    RunPinned(env, t, events);
    RunSourced(env, t, [], events);
    assert [] + events == events;
  }

  /**
   Whatever one event makes the router forward, a flushed handshake included, is on one connection for one
   client address, and is a subsequence of all that ever arrived from it, in order of arrival.
   */
  lemma FlushesInOrder(env: Env, t: Table, before: seq<Event>, e: Event)
    returns (id: nat, client: SocketAddr, sent: seq<seq<byte>>)
    requires Initial(t)
    ensures var mid := Run(env, t, before);
            Sends(mid, Step(env, mid, e).t, id, client, sent) && Subsequence(sent, ArrivedFrom(before + [e], client))
  {
    hide TableOk, Run, Step, Sends, ArrivedFrom, Initial, NoneMultiplied, InOrder, Pinned, Subsequence;
    InitialOk(env, t);
    RunKeeps(env, t, before);
    ReachableTraffic(env, t, before);
    var mid := Run(env, t, before);
    if e.ClientDatagram? {
      client := Normalize(e.peer);
      id, sent := MovedInOrder(env, mid, e, before);
    } else {
      id, client, sent := 0, V4(0, 0), [];
      SendsNothing(env, mid, e);
      NoneInOrder(ArrivedFrom(before + [e], client));
    }
  }

  lemma NoneInOrder(s: seq<seq<byte>>)
    ensures Subsequence([], s)
  {
  }

  lemma SendsNothing(env: Env, t: Table, e: Event)
    requires !e.ClientDatagram?
    ensures Sends(t, Step(env, t, e).t, 0, V4(0, 0), [])
  {
    hide BackendStep, Stale, Connection.Expired, Total;
    if e.BackendDatagram? {
      BackendReturns(env, t, e.id, e.packet, e.now, e.sendOk);
    }
  }

  /** What a handshake that is over flushes is in order. */
  lemma FlushInOrder(events: seq<Event>, e: Event, t: Table, spent: Option<PendingKey>, client: SocketAddr,
                     datagrams: seq<seq<byte>>, n: nat)
    requires InOrder(events, t.pending) && IsFrom(e, client) && (spent.Some? ==> spent.value.0 == client)
    requires datagrams == Spent(t, spent) + [e.packet] && n <= |datagrams|
    ensures Subsequence(datagrams[..n], ArrivedFrom(events + [e], client))
  {
    hide ArrivedFrom, Normalize, Subsequence;
    if spent.Some? {
      TakenInOrder(events, e, t, spent.value);
    } else {
      ArrivesNext(events, e, client);
      NoneInOrder(ArrivedFrom(events, client));
      SubsequenceLater([], ArrivedFrom(events, client), e.packet);
    }
    SubsequencePrefix(datagrams, n, ArrivedFrom(events + [e], client));
  }

  lemma MovedInOrder(env: Env, t: Table, e: Event, events: seq<Event>) returns (id: nat, sent: seq<seq<byte>>)
    requires TableOk(env, t) && InOrder(events, t.pending) && e.ClientDatagram?
    ensures Sends(t, Step(env, t, e).t, id, Normalize(e.peer), sent)
    ensures Subsequence(sent, ArrivedFrom(events + [e], Normalize(e.peer)))
  {
    hide TableOk, ClientStep, Normalize, ArrivedFrom, Sends, HeldAt, Subsequence, InOrder;
    var m := ClientMoves(env, t, e.peer, e.packet, e.io);
    id, sent := m.id, m.sent;
    var client := Normalize(e.peer);
    if m.waits.None? {
      var all := Spent(t, m.spent) + [e.packet];
      FlushInOrder(events, e, t, m.spent, client, all, |sent|);
      assert all[..|sent|] == sent;
    } else {
      NoneInOrder(ArrivedFrom(events + [e], client));
    }
  }
}
