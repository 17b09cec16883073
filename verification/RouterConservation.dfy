/** No datagram is lost without being counted, and none is counted twice. */
module RouterConservation {
  import opened Wrappers
  import opened Bytes
  import opened Addresses
  import opened Routing
  import opened Totals
  import opened Frames
  import opened RouterTable
  import opened RouterInvariant
  import opened RouterFate
  import QuicLb
  import L = LongHeader

  /** Datagrams forwarded, returned, dropped with a reason, or still buffered. */
  ghost function Accounted(t: Table): nat {
    |t.toBackend| + |t.toClient| + |t.dropped| + Buffered(t)
  }

  /** Datagrams an event brings in. */
  function Incoming(e: Event): nat {
    if e.ClientDatagram? || e.BackendDatagram? then 1 else 0
  }

  /** A step that returns without error accounts for n datagrams more, and only such a step does. */
  ghost predicate Accounts(t: Table, out: Out, n: nat) {
    (out.ok <==> Accounted(out.t) == Accounted(t) + n) && Accounted(out.t) <= Accounted(t) + n
  }

  lemma DropAccounts(t: Table, reason: Reason, n: nat)
    ensures Accounts(t, Out(t.Drop(reason, n), true), n)
  {
    hide Total, Counts;
  }

  lemma LearnAccounts(env: Env, t: Table, id: nat, cid: Cid)
    ensures Accounted(Learn(env, t, id, cid)) == Accounted(t)
  {
    hide Total, Counts, QuicLb.Lookup, OwnerOf;
  }

  lemma ForwardAccounts(env: Env, t: Table, id: nat, peer: SocketAddr, packet: seq<byte>, scid: Cid, now: nat, sendOk: bool)
    requires id in t.connections
    ensures Accounts(t, ForwardClient(env, t, id, peer, packet, scid, now, sendOk), 1)
  {
    hide Learn, Normalize, Connection.Expired, Total, Counts;
    DropAccounts(t, Expired, 1);
    var c := t.connections[id];
    var t1 := t.(connections := t.connections[id := c.(clientAddr := peer, lastSeen := now)],
                 toBackend := t.toBackend + [Forwarded(id, c.backend, Normalize(peer), packet)]);
    LearnAccounts(env, t1, id, scid);
  }

  lemma JoinAccounts(env: Env, t: Table, id: nat, p: Pending, route: Route, io: Io)
    requires id in t.connections && p.datagrams != []
    ensures Accounts(t, Join(env, t, id, p, route, io), |p.datagrams|)
  {
    hide Connection.Expired, Registrable, Total, Counts;
    DropAccounts(t, Expired, |p.datagrams|);
  }

  lemma CreateAccounts(env: Env, t: Table, p: Pending, addr: SocketAddr, route: Route, io: Io)
    requires p.datagrams != []
    ensures Accounts(t, Create(env, t, p, addr, route, io), |p.datagrams|)
  {
    hide QuicLb.IsServer, Pending.Requested, Total, Counts;
  }

  lemma EstablishAccounts(env: Env, t: Table, p: Pending, route: Route, io: Io)
    requires p.datagrams != []
    ensures Accounts(t, Establish(env, t, p, route, io), |p.datagrams|)
  {
    hide Refusal, Join, Create, Existing, Normalize, Accounts, Accounted;
    DropAccounts(t, NullBackend, |p.datagrams|);
    if route.backend.Udp? {
      var existing := Existing(t, Normalize(p.clientAddr), route.backend.addr);
      match Refusal(env, t, p, existing)
      case Some(reason) => RefusalAccounts(t, reason, |p.datagrams|);
      case None =>
        match existing
        case Some(id) => JoinAccounts(env, t, id, p, route, io);
        case None => CreateAccounts(env, t, p, route.backend.addr, route, io);
    }
  }

  lemma RefusalAccounts(t: Table, reason: Reason, n: nat)
    ensures var t1 := if reason == CidLimit then t.(cidLimited := t.cidLimited + 1) else t;
            Accounts(t, Out(t1.Drop(reason, n), true), n)
  {
    hide Total, Counts;
  }

  /** Datagrams taken out of the buffer and then accounted for elsewhere. */
  lemma Rebuffer(t: Table, mid: Table, out: Out, held: nat)
    requires Accounted(mid) + held == Accounted(t) && Accounts(mid, out, held + 1)
    ensures Accounts(t, out, 1)
  {
    hide Accounted;
  }

  lemma SpendAccounts(t: Table, spent: Option<PendingKey>)
    ensures Accounted(Spend(t, spent)) + |Spent(t, spent)| == Accounted(t)
  {
    hide Total, Counts;
    if spent.Some? {
      if spent.value in t.pending {
        SizesRemove(t.pending, spent.value);
      } else {
        assert t.pending - {spent.value} == t.pending;
      }
    }
  }

  lemma WaitAccounts(t: Table, key: PendingKey, p: Pending)
    requires |p.datagrams| == |HeldAt(t, key)| + 1
    ensures Accounts(t, Out(t.(pending := t.pending[key := p]), true), 1)
  {
    hide Total, Counts;
    SizesUpdate(t.pending, key, p);
    if key in t.pending {
      SizesRemove(t.pending, key);
    }
  }

  lemma FailedAccounts(t: Table, mid: Table, held: nat)
    requires Accounted(mid) + held == Accounted(t)
    ensures Accounts(t, Out(mid, false), 1)
  {
    hide Accounted;
  }

  lemma ClientAccounts(env: Env, t: Table, peer: SocketAddr, packet: seq<byte>, io: Io)
    requires TableOk(env, t)
    ensures Accounts(t, ClientStep(env, t, peer, packet, io), 1)
  {
    hide TableOk, ClientFate, ForwardClient, Establish, Normalize, Accounts, Accounted, Spend, Spent, HeldAt, Table.Drop;
    FateConcernsPeer(env, t, peer, packet, io.t1);
    match ClientFate(env, t, peer, packet, io.t1)
    case Along(id, scid) => ForwardAccounts(env, t, id, peer, packet, scid, io.t2, io.sends(0));
    case Waits(key, p) => WaitAccounts(t, key, p);
    case Oversized => FailedAccounts(t, t, 0);
    case Dropped(spent, reason, count) =>
      var mid := Spend(t, spent);
      SpendAccounts(t, spent);
      DropAccounts(mid, reason, count);
      Rebuffer(t, mid, Out(mid.Drop(reason, count), true), |Spent(t, spent)|);
    case Arrives(spent, p, route) =>
      var mid := Spend(t, spent);
      SpendAccounts(t, spent);
      if route.Failure? {
        FailedAccounts(t, mid, |Spent(t, spent)|);
      } else {
        EstablishAccounts(env, mid, p, route.value, io);
        Rebuffer(t, mid, Establish(env, mid, p, route.value, io), |Spent(t, spent)|);
      }
  }

  lemma BackendAccounts(env: Env, t: Table, id: nat, packet: seq<byte>, now: nat, sendOk: bool)
    ensures Accounts(t, BackendStep(env, t, id, packet, now, sendOk), 1)
  {
    hide Learn, L.Parse, Connection.Expired, Total, Counts;
    DropAccounts(t, MalformedBackend, 1);
    DropAccounts(t, StaleBackend, 1);
    DropAccounts(t, Expired, 1);
    if L.Parse(packet).Success? && id in t.connections {
      var c := t.connections[id];
      var long := L.Parse(packet).value;
      var c1 := c.(lastSeen := now, initialKeyDcid := RetryKey(long).GetOr(c.initialKeyDcid));
      LearnAccounts(env, t.(connections := t.connections[id := c1]), id, SourceId(long));
      LearnLogs(env, t.(connections := t.connections[id := c1]), id, SourceId(long));
    }
  }

  lemma LearnLogs(env: Env, t: Table, id: nat, cid: Cid)
    ensures var t1 := Learn(env, t, id, cid);
            t1.toBackend == t.toBackend && t1.toClient == t.toClient && t1.dropped == t.dropped &&
            t1.pending == t.pending && t1.nextId == t.nextId && t1.shared == t.shared
  {
  }

  lemma CleanupAccounts(env: Env, t: Table, now: nat)
    ensures Accounts(t, Out(CleanupStep(env, t, now), true), 0)
  {
    hide Stale, Connection.Expired, Total;
    var stale := StaleKeys(env, t, now);
    TotalSplit(Counts(t.pending), stale);
    assert Counts(t.pending - stale) == Counts(t.pending) - stale;
  }

  /**
   A step returns without error exactly when it accounts for every datagram that arrived: forwarded,
   dropped under a reason, or buffered, and no buffered one disappears otherwise.
   */
  lemma StepConserves(env: Env, t: Table, e: Event)
    requires TableOk(env, t)
    ensures Accounts(t, Step(env, t, e), Incoming(e))
  {
    hide TableOk, ClientStep, BackendStep, CleanupStep;
    match e
    case ClientDatagram(peer, packet, io) => ClientAccounts(env, t, peer, packet, io);
    case BackendDatagram(id, packet, now, sendOk) => BackendAccounts(env, t, id, packet, now, sendOk);
    case Reload(_) =>
    case Cleanup(now) => CleanupAccounts(env, t, now);
  }

  ghost predicate AllOk(env: Env, t: Table, events: seq<Event>)
    decreases |events|
  {
    events == [] || (Step(env, t, events[0]).ok && AllOk(env, Step(env, t, events[0]).t, events[1..]))
  }

  function Arrivals(events: seq<Event>): nat {
    if events == [] then 0 else Incoming(events[0]) + Arrivals(events[1..])
  }

  /** Over a run, every arrival is accounted for exactly if no step returned an error. */
  lemma {:induction false} RunConserves(env: Env, t: Table, events: seq<Event>)
    requires TableOk(env, t)
    ensures AllOk(env, t, events) <==> Accounted(Run(env, t, events)) == Accounted(t) + Arrivals(events)
    ensures Accounted(Run(env, t, events)) <= Accounted(t) + Arrivals(events)
    decreases |events|
  {
    hide TableOk, Step, Accounted;
    if events != [] {
      StepConserves(env, t, events[0]);
      StepKeeps(env, t, events[0]);
      RunConserves(env, Step(env, t, events[0]).t, events[1..]);
    }
  }

  /** From the start on: forwarded, returned, dropped and buffered datagrams add up to those that arrived. */
  lemma ReachableConserves(env: Env, t: Table, events: seq<Event>)
    requires Initial(t)
    ensures AllOk(env, t, events) <==> Accounted(Run(env, t, events)) == Arrivals(events)
  {
    InitialOk(env, t);
    assert Counts(t.pending) == map[];
    assert Accounted(t) == 0;
    hide TableOk, Accounted, AllOk;
    RunConserves(env, t, events);
  }
}
