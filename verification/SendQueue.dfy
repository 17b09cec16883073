/**
 The bounded send queue of a UDP socket as two processes: the router, which calls send_or_queue for
 one datagram at a time, and the writer task. Every atomic operation is one action, and the actions
 of the two processes interleave freely. Datagrams carry a serial number, in the order in which
 the router was asked to send them.
 */
module SendQueue {
  import opened Wrappers

  const MAX_QUEUED_DATAGRAMS: nat := 32
  const MAX_QUEUED_BYTES: nat := 128 * 1024

  datatype Datagram = Datagram(serial: nat, len: nat) {

    /** One byte is counted for an empty datagram. */
    function Charge(): nat {
      len + 1
    }
  }

  /** Where the router is inside send_or_queue and enqueue. */
  datatype Producer =
    | Idle
    | Direct(d: Datagram)                    // there is no queue, or the counter was read as zero
    | Reserving(d: Datagram)                 // about to reserve a slot of the channel
    | Reserved(d: Datagram)                  // holds a slot, not charged yet
    | Charged(d: Datagram, previous: nat)    // added the charge to `previous`
    | Refused(d: Datagram)                   // over the budget, charge not given back yet

  /** Where the writer task is in its loop. */
  datatype Writer = Waiting | Sending(q: Datagram) | Sent(q: Datagram)

  datatype State = State(
    created: bool,              // the queue is made on the first blocked send
    pending: nat,               // the shared atomic counter
    channel: seq<Datagram>,
    producer: Producer,
    writer: Writer,
    wire: seq<Datagram>,        // what the socket took, in order
    lost: nat,                  // datagrams dropped or failed
    next: nat                   // serial of the next datagram
  )

  /** Before the first datagram. */
  ghost predicate Initial(s: State) {
    !s.created && s.pending == 0 && s.channel == [] && s.producer.Idle? && s.writer.Waiting? &&
    s.wire == [] && s.lost == 0 && s.next == 0
  }

  datatype Action =
    | Submit(len: nat)          // enter send_or_queue and read the counter
    | DirectSend(taken: bool)   // the socket takes the datagram, or fails
    | DirectBlock               // the socket would block: fall through to the queue
    | Reserve | Charge | Decide | GiveBack
    | Receive | WriterSend(taken: bool) | Release

  predicate HoldsSlot(p: Producer) {
    p.Reserved? || p.Charged? || p.Refused?
  }

  /** The state after an action, or None when its process is not at that point. */
  function Next(s: State, a: Action): Option<State> {
    match a
    case Submit(len) =>
      if s.producer.Idle? then
        var d := Datagram(s.next, len);
        Some(s.(next := s.next + 1,
                producer := if !s.created || s.pending == 0 then Direct(d) else Reserving(d)))
      else None
    case DirectSend(taken) =>
      if s.producer.Direct? then
        Some(if taken then s.(producer := Idle, wire := s.wire + [s.producer.d])
             else s.(producer := Idle, lost := s.lost + 1))
      else None
    case DirectBlock =>
      if s.producer.Direct? then Some(s.(created := true, producer := Reserving(s.producer.d))) else None
    case Reserve =>
      if s.producer.Reserving? then
        Some(if |s.channel| < MAX_QUEUED_DATAGRAMS then s.(producer := Reserved(s.producer.d))
             else s.(producer := Idle, lost := s.lost + 1))
      else None
    case Charge =>
      if s.producer.Reserved? then
        Some(s.(pending := s.pending + s.producer.d.Charge(), producer := Charged(s.producer.d, s.pending)))
      else None
    case Decide =>
      if s.producer.Charged? then
        Some(if s.producer.previous + s.producer.d.Charge() > MAX_QUEUED_BYTES then s.(producer := Refused(s.producer.d))
             else s.(producer := Idle, channel := s.channel + [s.producer.d]))
      else None
    case GiveBack =>
      if s.producer.Refused? && s.pending >= s.producer.d.Charge() then
        Some(s.(pending := s.pending - s.producer.d.Charge(), producer := Idle, lost := s.lost + 1))
      else None
    case Receive =>
      if s.writer.Waiting? && s.channel != [] then
        Some(s.(channel := s.channel[1..], writer := Sending(s.channel[0])))
      else None
    case WriterSend(taken) =>
      if s.writer.Sending? then
        Some(if taken then s.(writer := Sent(s.writer.q), wire := s.wire + [s.writer.q])
             else s.(writer := Sent(s.writer.q), lost := s.lost + 1))
      else None
    case Release =>
      if s.writer.Sent? && s.pending >= s.writer.q.Charge() then
        Some(s.(pending := s.pending - s.writer.q.Charge(), writer := Waiting))
      else None
  }

  /** The state after a run of enabled actions. */
  function Run(s: State, actions: seq<Action>): Option<State>
    decreases |actions|
  {
    if actions == [] then Some(s)
    else
      match Next(s, actions[0])
      case None => None
      case Some(next) => Run(next, actions[1..])
  }

  ghost predicate Reachable(s: State) {
    exists s0, actions :: Initial(s0) && Run(s0, actions) == Some(s)
  }

  // ----- what the state holds

  function Charges(ds: seq<Datagram>): nat {
    if ds == [] then 0 else Charges(ds[..|ds| - 1]) + ds[|ds| - 1].Charge()
  }

  /** The datagram the writer has taken from the channel and not yet released. */
  function InFlight(w: Writer): seq<Datagram> {
    if w.Waiting? then [] else [w.q]
  }

  /** Datagrams admitted to the queue and not yet released. */
  function Outstanding(s: State): seq<Datagram> {
    InFlight(s.writer) + s.channel
  }

  /** A charge in the counter for a datagram that is not in the queue, or not yet. */
  function Transient(p: Producer): nat {
    if p.Charged? || p.Refused? then p.d.Charge() else 0
  }

  /** Datagrams that can still reach the wire, in the order in which they can. */
  function Unsent(s: State): seq<Datagram> {
    (if s.writer.Sending? then [s.writer.q] else []) + s.channel +
    (if s.producer.Idle? || s.producer.Refused? then [] else [s.producer.d])
  }

  ghost predicate Ordered(ds: seq<Datagram>) {
    forall i, j | 0 <= i < j < |ds| :: ds[i].serial < ds[j].serial
  }

  /** The counter, and the bounds it enforces. */
  ghost predicate Accounted(s: State) {
    s.pending == Charges(Outstanding(s)) + Transient(s.producer) &&
    |s.channel| + (if HoldsSlot(s.producer) then 1 else 0) <= MAX_QUEUED_DATAGRAMS &&
    Charges(Outstanding(s)) <= MAX_QUEUED_BYTES &&
    (s.producer.Charged? ==> s.producer.previous >= Charges(Outstanding(s))) &&
    (s.producer.Direct? ==> s.pending == 0) &&
    (!s.created ==> s.pending == 0 && (s.producer.Idle? || s.producer.Direct?))
  }

  /** Everything on the wire or bound for it, in order. */
  function Line(s: State): seq<Datagram> {
    s.wire + Unsent(s)
  }

  ghost predicate InLine(line: seq<Datagram>, gone: nat, next: nat) {
    Ordered(line) && (forall d <- line :: d.serial < next) && |line| + gone == next
  }

  /** Datagrams that will not reach the wire. */
  function Gone(s: State): nat {
    s.lost + if s.producer.Refused? then 1 else 0
  }

  ghost predicate Inv(s: State) {
    Accounted(s) && InLine(Line(s), Gone(s), s.next)
  }

  lemma {:induction false} ChargesOfFront(d: Datagram, ds: seq<Datagram>)
    ensures Charges([d] + ds) == d.Charge() + Charges(ds)
  {
    var all := [d] + ds;
    if ds == [] {
      assert all[..0] == [];
    } else {
      assert all[..|all| - 1] == [d] + ds[..|ds| - 1];
      ChargesOfFront(d, ds[..|ds| - 1]);
    }
  }

  lemma ChargesOfBack(ds: seq<Datagram>, d: Datagram)
    ensures Charges(ds + [d]) == Charges(ds) + d.Charge()
  {
    assert (ds + [d])[..|ds|] == ds;
  }

  lemma ChargesPositive(ds: seq<Datagram>)
    ensures Charges(ds) == 0 <==> ds == []
  {
  }

  /** All the bytes of the datagrams. */
  ghost function Bytes(ds: seq<Datagram>): nat {
    if ds == [] then 0 else Bytes(ds[..|ds| - 1]) + ds[|ds| - 1].len
  }

  /** A charge is the bytes of a datagram and one more, so that an empty one counts too. */
  lemma {:induction false} ChargesAreBytes(ds: seq<Datagram>)
    ensures Charges(ds) == Bytes(ds) + |ds|
  {
    if ds != [] {
      ChargesAreBytes(ds[..|ds| - 1]);
    }
  }

  lemma AccountedNext(s: State, a: Action)
    requires Accounted(s) && Next(s, a).Some?
    ensures Accounted(Next(s, a).value)
  {
    hide Charges;
    var t := Next(s, a).value;
    ChargesPositive(Outstanding(s));
    match a {
      case Decide =>
        ChargesOfBack(Outstanding(s), s.producer.d);
        assert Outstanding(s) + [s.producer.d] == InFlight(s.writer) + (s.channel + [s.producer.d]);
      case Receive =>
        assert Outstanding(t) == Outstanding(s);
      case Release =>
        ChargesOfFront(s.writer.q, s.channel);
        assert Outstanding(t) == s.channel;
      case _ =>
    }
  }

  lemma Join(line: seq<Datagram>, gone: nat, next: nat, d: Datagram)
    requires InLine(line, gone, next) && d.serial == next
    ensures InLine(line + [d], gone, next + 1)
  {
    var all := line + [d];
    forall i, j | 0 <= i < j < |all| ensures all[i].serial < all[j].serial {
      assert all[i] in line;
    }
  }

  /** Order survives when a datagram leaves the line. */
  lemma Leave(a: seq<Datagram>, d: Datagram, b: seq<Datagram>, gone: nat, next: nat)
    requires InLine(a + [d] + b, gone, next)
    ensures InLine(a + b, gone + 1, next)
  {
    var all := a + [d] + b;
    forall i, j | 0 <= i < j < |a + b| ensures (a + b)[i].serial < (a + b)[j].serial {
      var i1, j1 := if i < |a| then i else i + 1, if j < |a| then j else j + 1;
      assert all[i1] == (a + b)[i] && all[j1] == (a + b)[j];
    }
    forall x | x in a + b ensures x.serial < next {
      assert x in all;
    }
  }

  /** How the line of s becomes that of t: unchanged, or one more at its end, or one fewer. */
  ghost predicate Moves(s: State, t: State) {
    (Line(t) == Line(s) && Gone(t) == Gone(s) && t.next == s.next) ||
    (exists d: Datagram :: d.serial == s.next && Line(t) == Line(s) + [d] && Gone(t) == Gone(s) && t.next == s.next + 1) ||
    (exists a, d, b :: Line(s) == a + [d] + b && Line(t) == a + b && Gone(t) == Gone(s) + 1 && t.next == s.next)
  }

  lemma Left(s: State, t: State, a: seq<Datagram>, d: Datagram, b: seq<Datagram>)
    requires Line(s) == a + [d] + b && Line(t) == a + b && Gone(t) == Gone(s) + 1 && t.next == s.next
    ensures Moves(s, t)
  {
  }

  lemma DirectMoves(s: State, a: Action)
    requires Accounted(s) && Next(s, a).Some? && (a.Submit? || a.DirectSend? || a.DirectBlock?)
    ensures Moves(s, Next(s, a).value)
  {
    hide Moves, Charges;
    var t := Next(s, a).value;
    ChargesPositive(Outstanding(s));
    match a {
      case Submit(_) =>
        var d := t.producer.d;
        assert Line(t) == Line(s) + [d];
        assert Moves(s, t) by {
          Joined(s, t, d);
        }
      case DirectSend(taken) =>
        assert |Outstanding(s)| == 0;
        if taken {
          assert Line(t) == Line(s);
          Same(s, t);
        } else {
          assert Line(s) == s.wire + [s.producer.d] + [];
          assert Line(t) == s.wire + [];
          Left(s, t, s.wire, s.producer.d, []);
        }
      case DirectBlock => Same(s, t);
    }
  }

  lemma Same(s: State, t: State)
    requires Line(t) == Line(s) && Gone(t) == Gone(s) && t.next == s.next
    ensures Moves(s, t)
  {
  }

  lemma Joined(s: State, t: State, d: Datagram)
    requires d.serial == s.next && Line(t) == Line(s) + [d] && Gone(t) == Gone(s) && t.next == s.next + 1
    ensures Moves(s, t)
  {
  }

  lemma EnqueueMoves(s: State, a: Action)
    requires Next(s, a).Some? && (a.Reserve? || a.Charge? || a.Decide? || a.GiveBack?)
    ensures Moves(s, Next(s, a).value)
  {
    hide Moves;
    var t := Next(s, a).value;
    var front := s.wire + ((if s.writer.Sending? then [s.writer.q] else []) + s.channel);
    var d := s.producer.d;
    if a.Charge? || a.GiveBack? {
      assert Line(t) == Line(s);
      Same(s, t);
    } else {
      assert Line(s) == front + [d] + [];
      if t.producer.Refused? || (a.Reserve? && t.producer.Idle?) {
        assert Line(t) == front + [];
        Left(s, t, front, d, []);
      } else {
        assert Line(t) == front + [d];
        Same(s, t);
      }
    }
  }

  lemma WriterMoves(s: State, a: Action)
    requires Next(s, a).Some? && (a.Receive? || a.WriterSend? || a.Release?)
    ensures Moves(s, Next(s, a).value)
  {
    hide Moves;
    var t := Next(s, a).value;
    if a.WriterSend? && !a.taken {
      var held := if s.producer.Idle? || s.producer.Refused? then [] else [s.producer.d];
      assert Line(s) == s.wire + [s.writer.q] + (s.channel + held);
      assert Line(t) == s.wire + (s.channel + held);
      Left(s, t, s.wire, s.writer.q, s.channel + held);
    } else {
      assert Line(t) == Line(s);
      Same(s, t);
    }
  }

  lemma InLineNext(s: State, a: Action)
    requires Accounted(s) && InLine(Line(s), Gone(s), s.next) && Next(s, a).Some?
    ensures var t := Next(s, a).value; InLine(Line(t), Gone(t), t.next)
  {
    hide Accounted, Next, InLine, Line, Gone;
    var t := Next(s, a).value;
    if a.Submit? || a.DirectSend? || a.DirectBlock? {
      DirectMoves(s, a);
    } else if a.Receive? || a.WriterSend? || a.Release? {
      WriterMoves(s, a);
    } else {
      EnqueueMoves(s, a);
    }
    if Line(t) == Line(s) && Gone(t) == Gone(s) && t.next == s.next {
    } else if d: Datagram :| d.serial == s.next && Line(t) == Line(s) + [d] && Gone(t) == Gone(s) && t.next == s.next + 1 {
      Join(Line(s), Gone(s), s.next, d);
    } else {
      var x, d, y :| Line(s) == x + [d] + y && Line(t) == x + y && Gone(t) == Gone(s) + 1 && t.next == s.next;
      Leave(x, d, y, Gone(s), s.next);
    }
  }

  lemma {:induction false} RunKeepsInv(s: State, actions: seq<Action>)
    requires Inv(s) && Run(s, actions).Some?
    ensures Inv(Run(s, actions).value)
    decreases |actions|
  {
    hide Accounted, InLine, Line, Gone, Next;
    if actions != [] {
      AccountedNext(s, actions[0]);
      InLineNext(s, actions[0]);
      RunKeepsInv(Next(s, actions[0]).value, actions[1..]);
    }
  }

  lemma StartInv(s: State)
    requires Initial(s)
    ensures Inv(s)
  {
    assert Outstanding(s) == [];
    assert Line(s) == [];
  }

  lemma ReachableInv(s: State)
    requires Reachable(s)
    ensures Inv(s)
  {
    hide Inv, Next, Initial;
    var s0, actions :| Initial(s0) && Run(s0, actions) == Some(s);
    StartInv(s0);
    RunKeepsInv(s0, actions);
  }

  // ----- safety over every interleaving

  /** The socket takes datagrams in the order in which the router was asked to send them. */
  lemma NoOvertaking(s: State)
    requires Reachable(s)
    ensures Ordered(s.wire)
  {
    ReachableInv(s);
    forall i, j | 0 <= i < j < |s.wire| ensures s.wire[i].serial < s.wire[j].serial {
      assert Line(s)[i] == s.wire[i] && Line(s)[j] == s.wire[j];
    }
  }

  /** A direct send is only ever tried while the queue and the writer hold nothing. */
  lemma DirectOnlyWhenEmpty(s: State)
    requires Reachable(s) && s.producer.Direct?
    ensures s.channel == [] && s.writer == Waiting
  {
    ReachableInv(s);
    ChargesPositive(Outstanding(s));
    assert |Outstanding(s)| == 0;
  }

  /** And it is tried whenever they hold nothing when the datagram comes. */
  lemma DirectWheneverEmpty(s: State, len: nat)
    requires Reachable(s) && s.producer.Idle?
    ensures Next(s, Submit(len)).Some?
    ensures var p := Next(s, Submit(len)).value.producer;
            (p.Direct? <==> s.channel == [] && s.writer.Waiting?) && (p.Direct? || p.Reserving?) &&
            p.d == Datagram(s.next, len)
  {
    CounterIsExact(s);
    ReachableInv(s);
    if !s.created {
      ChargesPositive(Outstanding(s));
      assert |Outstanding(s)| == 0;
    }
  }

  /**
   A datagram is lost only to a socket that fails, a full channel, or the byte budget: exactly then does
   the count of lost ones grow.
   */
  lemma LostExactly(s: State, a: Action)
    requires Reachable(s) && Next(s, a).Some?
    ensures Next(s, a).value.lost == s.lost || Next(s, a).value.lost == s.lost + 1
    ensures Next(s, a).value.lost > s.lost <==>
            (a.DirectSend? && !a.taken) || (a.WriterSend? && !a.taken) || (a.Reserve? && |s.channel| == 32) || a.GiveBack?
  {
    ReachableInv(s);
  }

  /** A datagram that holds a slot is queued at the end exactly when the bytes outstanding leave room for it. */
  lemma AdmittedExactly(s: State)
    requires Reachable(s) && s.producer.Reserved?
    ensures var t := Next(Next(s, Charge).value, Decide).value;
            if Bytes(Outstanding(s)) + |Outstanding(s)| + s.producer.d.len + 1 <= 131072
            then t.producer.Idle? && t.channel == s.channel + [s.producer.d]
            else t.producer == Refused(s.producer.d) && t.channel == s.channel
  {
    ChargesAreBytes(Outstanding(s));
    hide Charges, Bytes;
    ChargeSeesOutstanding(s);
  }

  /** What the writer sends is what has been queued longest. */
  lemma WriterTakesOldest(s: State, taken: bool)
    requires Reachable(s) && s.writer.Waiting? && s.channel != []
    ensures Next(s, Receive).Some? && Next(Next(s, Receive).value, WriterSend(taken)).Some?
    ensures var t := Next(Next(s, Receive).value, WriterSend(taken)).value;
            t.channel == s.channel[1..] && t.wire == if taken then s.wire + [s.channel[0]] else s.wire
  {
  }

  /** Outside enqueue, the counter reads zero exactly when nothing is queued or in flight. */
  lemma CounterIsExact(s: State)
    requires Reachable(s)
    ensures s.pending == Charges(Outstanding(s)) + Transient(s.producer)
    ensures s.producer.Idle? ==> (s.pending == 0 <==> s.channel == [] && s.writer.Waiting?)
  {
    ReachableInv(s);
    ChargesPositive(Outstanding(s));
    assert |Outstanding(s)| == |InFlight(s.writer)| + |s.channel|;
  }

  /** The budget is compared with exactly what is outstanding when the charge is added. */
  lemma ChargeSeesOutstanding(s: State)
    requires Reachable(s) && s.producer.Reserved?
    ensures Next(s, Charge).Some? && Next(s, Charge).value.producer == Charged(s.producer.d, Charges(Outstanding(s)))
    ensures var t := Next(Next(s, Charge).value, Decide).value;
            t.producer.Refused? <==> Charges(Outstanding(s)) + s.producer.d.Charge() > MAX_QUEUED_BYTES
  {
    hide Charges;
    ReachableInv(s);
  }

  /** The queue's bounds on datagrams and on bytes. */
  lemma QueueIsBounded(s: State)
    requires Reachable(s)
    ensures |s.channel| <= 32 && |Outstanding(s)| <= 33
    ensures Bytes(Outstanding(s)) + |Outstanding(s)| <= 131072
  {
    ReachableInv(s);
    ChargesAreBytes(Outstanding(s));
  }

  /** Every datagram submitted is on the wire, lost, or on its way, and is so exactly once. */
  lemma NothingVanishes(s: State)
    requires Reachable(s)
    ensures |s.wire| + |Unsent(s)| + Gone(s) == s.next
    ensures Ordered(s.wire + Unsent(s))
  {
    ReachableInv(s);
  }

  /** Giving a charge back and releasing one never wait: the counter always covers them. */
  lemma NoUnderflow(s: State)
    requires Reachable(s)
    ensures s.producer.Refused? ==> Next(s, GiveBack).Some?
    ensures s.writer.Sent? ==> Next(s, Release).Some?
    ensures s.writer.Sent? ==> Next(s, Release).value.writer.Waiting? && Next(s, Release).value.channel == s.channel
  {
    ReachableInv(s);
    if s.writer.Sent? {
      ChargesOfFront(s.writer.q, s.channel);
    }
  }

  /** Neither process is ever stuck: wherever it is, its next action is enabled. */
  lemma NeverStuck(s: State, len: nat, answer: bool)
    requires Reachable(s)
    ensures match s.producer
            case Idle => Next(s, Submit(len)).Some?
            case Direct(d) =>
              Next(s, DirectSend(answer)).Some? && Next(s, DirectBlock).Some? &&
              Next(s, DirectBlock).value.producer == Reserving(d) && Next(s, DirectBlock).value.created
            case Reserving(d) =>
              Next(s, Reserve).Some? && (|s.channel| < 32 ==> Next(s, Reserve).value.producer == Reserved(d))
            case Reserved(_) => Next(s, Charge).Some?
            case Charged(_, _) => Next(s, Decide).Some?
            case Refused(_) => Next(s, GiveBack).Some?
    ensures s.writer.Waiting? && s.channel != [] ==> Next(s, Receive).Some?
    ensures s.writer.Sending? ==> Next(s, WriterSend(answer)).Some?
    ensures s.writer.Sent? ==> Next(s, Release).Some?
  {
    NoUnderflow(s);
  }
}
