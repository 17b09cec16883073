/**
 The order in which a connection's upstream socket gets its client's datagrams: that of their arrival,
 unless a handshake that was buffered joins the path later.
 */
module RouterOrder {
  import opened Wrappers
  import opened Bytes
  import opened Addresses
  import opened RouterTable
  import opened RouterInvariant
  import opened RouterFate
  import opened RouterHandshake
  import opened RouterPinning
  import opened RouterProvenance

  /** The datagrams forwarded on a connection for a client address, in order. */
  ghost function OnPath(log: seq<Forwarded>, id: nat, client: SocketAddr): seq<seq<byte>> {
    if log == [] then []
    else
      var before := OnPath(log[..|log| - 1], id, client);
      var f := log[|log| - 1];
      if f.id == id && f.client == client then before + [f.datagram] else before
  }

  ghost predicate OrderedOn(events: seq<Event>, t: Table, id: nat) {
    forall client :: Subsequence(OnPath(t.toBackend, id, client), ArrivedFrom(events, client))
  }

  /** The event completes a handshake that joins the connection. */
  ghost predicate Joins(env: Env, t: Table, e: Event, id: nat) {
    e.ClientDatagram? &&
    var fate := ClientFate(env, t, e.peer, e.packet, e.io.t1);
    fate.Arrives? && fate.route.Success? && Accepted(env, Spend(t, fate.spent), fate.p, fate.route.value, e.io) &&
    Joined(Spend(t, fate.spent), fate.p, fate.route.value) == Some(id)
  }

  /** Only shared paths are ever joined. */
  lemma OnlySharedAreJoined(env: Env, t: Table, e: Event, id: nat)
    requires Joins(env, t, e, id)
    ensures id in t.shared
  {
    hide ClientFate, Normalize, Connection.PathKey;
  }

  // ----- one step

  lemma {:induction false} OnPathMore(log: seq<Forwarded>, more: seq<Forwarded>, on: nat, from: SocketAddr,
                                      datagrams: seq<seq<byte>>, id: nat, client: SocketAddr)
    requires |more| == |datagrams|
    requires forall i | 0 <= i < |more| :: more[i].id == on && more[i].client == from && more[i].datagram == datagrams[i]
    ensures OnPath(log + more, id, client) ==
            if id == on && client == from then OnPath(log, id, client) + datagrams else OnPath(log, id, client)
    decreases |more|
  {
    hide OnPath;
    if more == [] {
      assert log + more == log;
    } else {
      var n := |more| - 1;
      OnPathMore(log, more[..n], on, from, datagrams[..n], id, client);
      assert log + more == (log + more[..n]) + [more[n]];
      OnPathOne(log + more[..n], more[n], id, client);
      assert OnPath(log, id, client) + datagrams == (OnPath(log, id, client) + datagrams[..n]) + [datagrams[n]];
    }
  }

  lemma OnPathOne(log: seq<Forwarded>, f: Forwarded, id: nat, client: SocketAddr)
    ensures OnPath(log + [f], id, client) ==
            if f.id == id && f.client == client then OnPath(log, id, client) + [f.datagram] else OnPath(log, id, client)
  {
    assert (log + [f])[..|log|] == log;
  }

  lemma SendsOnPath(t: Table, t': Table, on: nat, from: SocketAddr, sent: seq<seq<byte>>, id: nat, client: SocketAddr)
    requires Sends(t, t', on, from, sent)
    ensures OnPath(t'.toBackend, id, client) ==
            if id == on && client == from then OnPath(t.toBackend, id, client) + sent else OnPath(t.toBackend, id, client)
  {
    hide OnPath;
    var log, more := t.toBackend, t'.toBackend[|t.toBackend|..];
    assert t'.toBackend == log + more;
    OnPathMore(log, more, on, from, sent, id, client);
  }

  /** An id that was not given out yet has carried nothing. */
  lemma {:induction false} NothingOnNewPath(log: seq<Forwarded>, id: nat, client: SocketAddr)
    requires forall f <- log :: f.id < id
    ensures OnPath(log, id, client) == []
  {
    if log != [] {
      assert log[|log| - 1] in log;
      NothingOnNewPath(log[..|log| - 1], id, client);
    }
  }

  /** What was in order stays so while datagrams arrive. */
  lemma StillOrdered(s: seq<seq<byte>>, events: seq<Event>, e: Event, client: SocketAddr)
    requires Subsequence(s, ArrivedFrom(events, client))
    ensures Subsequence(s, ArrivedFrom(events + [e], client))
  {
    hide ArrivedFrom, Normalize, Subsequence;
    ArrivesNext(events, e, client);
    if IsFrom(e, client) {
      SubsequenceLater(s, ArrivedFrom(events, client), e.packet);
    }
  }

  /** Sending nothing, sending just what arrived, or sending on a connection that has carried nothing. */
  lemma SendsInOrder(events: seq<Event>, e: Event, t: Table, t': Table, on: nat, from: SocketAddr, sent: seq<seq<byte>>, id: nat)
    requires OrderedOn(events, t, id) && Sends(t, t', on, from, sent)
    requires on == id && sent != [] ==>
               (IsFrom(e, from) && sent == [e.packet]) ||
               (OnPath(t.toBackend, id, from) == [] && Subsequence(sent, ArrivedFrom(events + [e], from)))
    ensures OrderedOn(events + [e], t', id)
  {
    hide Sends, ArrivedFrom, Normalize, Subsequence, OnPath;
    forall client ensures Subsequence(OnPath(t'.toBackend, id, client), ArrivedFrom(events + [e], client)) {
      SendsOnPath(t, t', on, from, sent, id, client);
      StillOrdered(OnPath(t.toBackend, id, client), events, e, client);
      if on == id && client == from && sent != [] {
        if IsFrom(e, from) && sent == [e.packet] {
          ArrivesNext(events, e, client);
          SubsequenceLater(OnPath(t.toBackend, id, client), ArrivedFrom(events, client), e.packet);
        } else {
          assert OnPath(t.toBackend, id, client) + sent == sent;
        }
      } else if on == id && client == from {
        assert OnPath(t.toBackend, id, client) + sent == OnPath(t.toBackend, id, client);
      }
    }
  }

  lemma ClientOrdered(env: Env, t: Table, e: Event, events: seq<Event>, id: nat)
    requires TableOk(env, t) && Pinned(t) && InOrder(events, t.pending) && OrderedOn(events, t, id)
    requires e.ClientDatagram? && !Joins(env, t, e, id)
    ensures OrderedOn(events + [e], ClientStep(env, t, e.peer, e.packet, e.io).t, id)
  {
    hide TableOk, ClientFate, ForwardClient, Establish, Normalize, OrderedOn, ArrivedFrom, Sends, Subsequence,
      OnPath, OnePath, InOrder, Joined, Accepted, HeldAt;
    var peer, packet, io := e.peer, e.packet, e.io;
    var client := Normalize(peer);
    var t' := ClientStep(env, t, peer, packet, io).t;
    FateConcernsPeer(env, t, peer, packet, io.t1);
    match ClientFate(env, t, peer, packet, io.t1)
    case Along(on, scid) =>
      var n := ForwardSends(env, t, on, peer, packet, scid, io.t2, io.sends(0));
      SendsInOrder(events, e, t, t', on, client, [packet][..n], id);
    case Arrives(spent, p, route) =>
      if route.Success? {
        var mid := Spend(t, spent);
        var n := EstablishSends(env, mid, p, route.value, io);
        FlushInOrder(events, e, t, spent, client, p.datagrams, n);
        NothingOnNewPath(t.toBackend, t.nextId, client);
        SendsSame(t, mid, t', Joined(mid, p, route.value).GetOr(t.nextId), client, p.datagrams[..n]);
        SendsInOrder(events, e, t, t', Joined(mid, p, route.value).GetOr(t.nextId), client, p.datagrams[..n], id);
      } else {
        QuietInOrder(events, e, t, t', id);
      }
    case _ => QuietInOrder(events, e, t, t', id);
  }

  lemma QuietInOrder(events: seq<Event>, e: Event, t: Table, t': Table, id: nat)
    requires OrderedOn(events, t, id) && t'.toBackend == t.toBackend
    ensures OrderedOn(events + [e], t', id)
  {
    SendsInOrder(events, e, t, t', id, V4(0, 0), [], id);
  }

  /** A step keeps a connection in order unless a handshake joins it. */
  lemma StepOrdered(env: Env, t: Table, e: Event, events: seq<Event>, id: nat)
    requires TableOk(env, t) && Pinned(t) && InOrder(events, t.pending) && OrderedOn(events, t, id)
    requires !Joins(env, t, e, id)
    ensures OrderedOn(events + [e], Step(env, t, e).t, id)
  {
    hide TableOk, Pinned, InOrder, OrderedOn, Joins, ClientStep, BackendStep, CleanupStep;
    if e.ClientDatagram? {
      ClientOrdered(env, t, e, events, id);
    } else {
      assert Step(env, t, e).t.toBackend == t.toBackend by {
        SendsNothing(env, t, e);
      }
      QuietInOrder(events, e, t, Step(env, t, e).t, id);
    }
  }

  // ----- over a run

  ghost predicate NeverJoined(env: Env, t: Table, events: seq<Event>, id: nat)
    decreases |events|
  {
    events == [] || (!Joins(env, t, events[0], id) && NeverJoined(env, Step(env, t, events[0]).t, events[1..], id))
  }

  lemma {:induction false} RunOrdered(env: Env, t: Table, before: seq<Event>, events: seq<Event>, id: nat)
    requires TableOk(env, t) && Pinned(t) && Sourced(before, t) && OrderedOn(before, t, id)
    requires NeverJoined(env, t, events, id)
    ensures OrderedOn(before + events, Run(env, t, events), id)
    decreases |events|
  {
    hide TableOk, Pinned, OrderedOn, Joins, Step, InOrder, NoneMultiplied, Subsequence;
    if events == [] {
      assert before + events == before;
    } else {
      var next := Step(env, t, events[0]).t;
      StepOrdered(env, t, events[0], before, id);
      StepKeeps(env, t, events[0]);
      StepPinned(env, t, events[0]);
      StepSourced(env, t, events[0], before);
      RunOrdered(env, next, before + [events[0]], events[1..], id);
      assert before + [events[0]] + events[1..] == before + events;
    }
  }

  lemma StepPinned(env: Env, t: Table, e: Event)
    requires TableOk(env, t) && Pinned(t)
    ensures Pinned(Step(env, t, e).t)
  {
    hide TableOk, Step, Pinned;
    RunPinned(env, t, [e]);
    assert [e][1..] == [];
  }

  /**
   From the start on, what a connection carried upstream is, in order, part of what arrived from its
   client, unless a handshake joined the connection after it was made.
   */
  lemma ReachableOrder(env: Env, t: Table, events: seq<Event>, id: nat)
    requires Initial(t) && NeverJoined(env, t, events, id)
    ensures OrderedOn(events, Run(env, t, events), id)
  {
    hide TableOk, Pinned, Sourced, OrderedOn, NeverJoined, Initial;
    InitialOk(env, t);
    NothingYet(t);
    NothingPinned(t);
    NothingOrdered(t, id);
    RunOrdered(env, t, [], events, id);
    assert [] + events == events;
  }

  lemma NothingOrdered(t: Table, id: nat)
    requires Initial(t)
    ensures OrderedOn([], t, id)
  {
  }

  lemma NothingPinned(t: Table)
    requires Initial(t)
    ensures Pinned(t)
  {
  }

  /** A connection that is no QUIC-LB path throughout a run is never joined. */
  lemma {:induction false} UnsharedIsNeverJoined(env: Env, t: Table, events: seq<Event>, id: nat)
    requires NeverShared(env, t, events, id)
    ensures NeverJoined(env, t, events, id)
    decreases |events|
  {
    hide Step, Joins;
    if events != [] {
      if Joins(env, t, events[0], id) {
        OnlySharedAreJoined(env, t, events[0], id);
        assert false;
      }
      UnsharedIsNeverJoined(env, Step(env, t, events[0]).t, events[1..], id);
    }
  }

  ghost predicate NeverShared(env: Env, t: Table, events: seq<Event>, id: nat)
    decreases |events|
  {
    id !in t.shared && (events == [] || NeverShared(env, Step(env, t, events[0]).t, events[1..], id))
  }
}
