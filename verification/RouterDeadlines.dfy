/** A path's deadline is the earliest of those its handshakes brought, and nothing else moves it. */
module RouterDeadlines {
  import opened Wrappers
  import opened Bytes
  import opened Addresses
  import opened Routing
  import opened Frames
  import opened RouterTable
  import opened RouterInvariant
  import opened RouterHandshake
  import opened RouterPinning
  import QuicLb
  import L = LongHeader

  /** The deadline an event brings to a connection: its handshake's, if it joins that connection. */
  ghost function Brings(env: Env, t: Table, e: Event, id: nat): Option<nat> {
    if !e.ClientDatagram? then None
    else
      var fate := ClientFate(env, t, e.peer, e.packet, e.io.t1);
      if fate.Arrives? && fate.route.Success? then Contributes(env, Spend(t, fate.spent), fate.p, fate.route.value, e.io, id)
      else None
  }

  ghost function Contributes(env: Env, t: Table, p: Pending, route: Route, io: Io, id: nat): Option<nat> {
    if Accepted(env, t, p, route, io) && Joined(t, p, route) == Some(id) then AddTimeout(io.t2, route.timeout) else None
  }

  // ----- one step

  ghost predicate SameDeadlines(t: Table, t': Table) {
    forall id <- t'.connections :: id in t.connections ==> t'.connections[id].deadline == t.connections[id].deadline
  }

  lemma LearnDeadlines(env: Env, t: Table, id: nat, cid: Cid)
    ensures SameDeadlines(t, Learn(env, t, id, cid))
  {
    hide OwnerOf, QuicLb.Lookup;
  }

  lemma ForwardDeadlines(env: Env, t: Table, id: nat, peer: SocketAddr, packet: seq<byte>, scid: Cid, now: nat, sendOk: bool)
    ensures SameDeadlines(t, ForwardClient(env, t, id, peer, packet, scid, now, sendOk).t)
  {
    hide Learn, Connection.Expired, Normalize;
    if id in t.connections {
      var c := t.connections[id];
      var t1 := t.(connections := t.connections[id := c.(clientAddr := peer, lastSeen := now)],
                   toBackend := t.toBackend + [Forwarded(id, c.backend, Normalize(peer), packet)]);
      LearnDeadlines(env, t1, id, scid);
      LearnContinues(env, t1, id, scid);
    }
  }

  lemma EstablishDeadlines(env: Env, t: Table, p: Pending, route: Route, io: Io, id: nat)
    requires id in t.connections && forall x <- t.connections :: x < t.nextId
    ensures var t' := Establish(env, t, p, route, io).t;
            id in t'.connections ==>
              t'.connections[id].deadline == MinTimeout(t.connections[id].deadline, Contributes(env, t, p, route, io, id))
  {
    hide Refusal, Existing, Connection.Expired, QuicLb.IsServer, Pending.Requested, Registrable, Normalize, Log;
  }

  lemma BackendDeadlines(env: Env, t: Table, id: nat, packet: seq<byte>, now: nat, sendOk: bool)
    ensures SameDeadlines(t, BackendStep(env, t, id, packet, now, sendOk).t)
  {
    hide Learn, L.Parse, Connection.Expired;
    if L.Parse(packet).Success? && id in t.connections {
      var c := t.connections[id];
      var long := L.Parse(packet).value;
      var t1 := t.(connections := t.connections[id := c.(lastSeen := now, initialKeyDcid := RetryKey(long).GetOr(c.initialKeyDcid))]);
      LearnDeadlines(env, t1, id, SourceId(long));
      LearnContinues(env, t1, id, SourceId(long));
    }
  }

  lemma ClientDeadline(env: Env, t: Table, peer: SocketAddr, packet: seq<byte>, io: Io, id: nat)
    requires (forall x <- t.connections :: x < t.nextId) && id in t.connections
    requires id in ClientStep(env, t, peer, packet, io).t.connections
    ensures ClientStep(env, t, peer, packet, io).t.connections[id].deadline ==
            MinTimeout(t.connections[id].deadline, Brings(env, t, ClientDatagram(peer, packet, io), id))
  {
    hide ClientFate, ForwardClient, Establish, Contributes;
    var fate := ClientFate(env, t, peer, packet, io.t1);
    match fate
    case Along(on, scid) => ForwardDeadlines(env, t, on, peer, packet, scid, io.t2, io.sends(0));
    case Arrives(spent, p, route) =>
      if route.Success? {
        EstablishDeadlines(env, Spend(t, spent), p, route.value, io, id);
      }
    case _ =>
  }

  /** After a step, a surviving connection's deadline is the earlier of its own and the one brought to it. */
  lemma StepDeadline(env: Env, t: Table, e: Event, id: nat)
    requires TableOk(env, t) && id in t.connections && id in Step(env, t, e).t.connections
    ensures Step(env, t, e).t.connections[id].deadline == MinTimeout(t.connections[id].deadline, Brings(env, t, e, id))
  {
    hide TableOk, ClientStep, BackendStep, ClientFate, Contributes, Connection.Expired, Stale;
    TableIds(env, t);
    match e
    case ClientDatagram(peer, packet, io) => ClientDeadline(env, t, peer, packet, io, id);
    case BackendDatagram(on, packet, now, sendOk) => BackendDeadlines(env, t, on, packet, now, sendOk);
    case Reload(_) =>
    case Cleanup(_) =>
  }

  // ----- over a run

  /** All deadlines that a run brings to a connection, in order. */
  ghost function Brought(env: Env, t: Table, events: seq<Event>, id: nat): seq<Option<nat>>
    decreases |events|
  {
    if events == [] then []
    else [Brings(env, t, events[0], id)] + Brought(env, Step(env, t, events[0]).t, events[1..], id)
  }

  /** The earliest of a deadline and some others. */
  ghost predicate Earliest(result: Option<nat>, start: Option<nat>, others: seq<Option<nat>>) {
    (result == start || result in others) &&
    NotLater(result, start) && forall d <- others :: NotLater(result, d)
  }

  lemma EarliestOf(first: Option<nat>, brought: Option<nat>, rest: seq<Option<nat>>, result: Option<nat>)
    requires Earliest(result, MinTimeout(first, brought), rest)
    ensures Earliest(result, first, [brought] + rest)
  {
  }

  /** Over a run, a connection's deadline is the earliest of its own and of all that were brought to it. */
  lemma {:induction false} RunDeadline(env: Env, t: Table, events: seq<Event>, id: nat)
    requires TableOk(env, t) && id in t.connections && id in Run(env, t, events).connections
    ensures Earliest(Run(env, t, events).connections[id].deadline, t.connections[id].deadline, Brought(env, t, events, id))
    decreases |events|
  {
    hide TableOk, Step, Brings, Earliest;
    if events == [] {
      assert Earliest(t.connections[id].deadline, t.connections[id].deadline, []) by {
        NothingBrought(t.connections[id].deadline);
      }
    } else {
      var next := Step(env, t, events[0]).t;
      StepKeeps(env, t, events[0]);
      Present(env, t, events, id);
      StepDeadline(env, t, events[0], id);
      RunDeadline(env, next, events[1..], id);
      EarliestOf(t.connections[id].deadline, Brings(env, t, events[0], id), Brought(env, next, events[1..], id),
                 Run(env, t, events).connections[id].deadline);
    }
  }

  lemma NothingBrought(d: Option<nat>)
    ensures Earliest(d, d, [])
  {
  }

  /** A connection there at both ends of a run is there after its first step. */
  lemma Present(env: Env, t: Table, events: seq<Event>, id: nat)
    requires TableOk(env, t) && events != [] && id in t.connections && id in Run(env, t, events).connections
    ensures id in Step(env, t, events[0]).t.connections
  {
    hide TableOk, Step, SendsOnPaths, SparesExpired;
    var next := Step(env, t, events[0]).t;
    TableIds(env, t);
    StepGood(env, t, events[0], 0);
    StepKeeps(env, t, events[0]);
    RunEvolves(env, next, events[1..]);
  }
}
