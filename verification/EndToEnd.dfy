/** Two peers over a network that loses, duplicates and reorders. A message once
    sent can be delivered at any later time, any number of times, or never. */
module EndToEnd {
  import opened Basics
  import opened AckBits
  import opened MachineInts
  import opened SequenceNumbers
  import opened ReliabilityModel
  import ReliabilityRuns
  import AckAttribution
  import Receiver

  datatype Message = Message(sequence: uint32, ack: uint32, ackBits: uint32)

  /** One peer: its record, the numbers it has received, and every message it has put on the network. */
  datatype Peer = Peer(r: Reliability, received: set<nat>, outbox: set<Message>)

  datatype Event = Send(size: nat) | Deliver(message: Message) | Clock(dt: Elapsed)

  datatype Step = Step(left: bool, event: Event)

  datatype Link = Link(left: Peer, right: Peer)

  function Start(): Link
  {
    Link(Peer(Cleared(), {}, {}), Peer(Cleared(), {}, {}))
  }

  /** streamSend puts the counter, ack and field in the header before counting
      the packet as sent; streamReceive ignores an ack beyond the counter. */
  function Act(x: Peer, e: Event): Peer
    requires Shaped(x.r)
  {
    match e
    case Send(size) =>
      Peer(PacketSent(x.r, size), x.received, x.outbox + {Message(x.r.sequence, x.r.seen.ack, x.r.seen.ackBits)})
    case Deliver(m) =>
      if m.ack <= x.r.sequence
      then Peer(PacketReceived(x.r, m.sequence, m.ack, m.ackBits), x.received + {m.sequence}, x.outbox)
      else x
    case Clock(dt) => x.(r := Update(x.r, dt))
  }

  /** Peers send fewer than 65535 packets, and only what the other side sent is delivered. */
  predicate Enabled(x: Peer, y: Peer, e: Event)
  {
    match e
    case Send(_) => x.r.totalSent < MAX_SEQUENCE - 1
    case Deliver(m) => m in y.outbox
    case Clock(_) => true
  }

  /** No set bit that is looked at reaches more than 35 sends back onto an unflagged
      slot. With an empty sent window none is looked at. */
  predicate Unaliased(x: Peer, e: Event)
    requires Shaped(x.r)
  {
    e.Deliver? && x.r.sentLen > 0 && e.message.ack <= x.r.sequence < e.message.ack + CAPACITY ==>
      forall p :: 0 <= p < ACK_WALK && Bit(e.message.ackBits, p) && x.r.sequence - e.message.ack + p > CAPACITY ==>
                    x.r.recent[Slot(x.r.sequence - e.message.ack + p)].acked
  }

  function Run(steps: seq<Step>): (s: Link)
    ensures Shaped(s.left.r) && Shaped(s.right.r)
  {
    if steps == [] then Start()
    else
      var s, t := Run(Front(steps)), Last(steps);
      if t.left then Link(Act(s.left, t.event), s.right) else Link(s.left, Act(s.right, t.event))
  }

  predicate Legal(steps: seq<Step>)
  {
    steps == [] || (
      var s, t := Run(Front(steps)), Last(steps);
      && Legal(Front(steps))
      && if t.left then Enabled(s.left, s.right, t.event) else Enabled(s.right, s.left, t.event))
  }

  predicate Clean(steps: seq<Step>)
  {
    steps == [] || (
      var s, t := Run(Front(steps)), Last(steps);
      && Clean(Front(steps))
      && Unaliased(if t.left then s.left else s.right, t.event))
  }

  /** What one peer knows is true of itself, and everything it ever told was. */
  ghost predicate Honest(x: Peer)
    requires Shaped(x.r)
  {
    && ReliabilityRuns.RingShape(x.r) && x.r.totalSent < MAX_SEQUENCE
    && Receiver.Sound(x.r.seen, x.received)
    && forall m :: m in x.outbox ==>
         m.sequence < x.r.totalSent && Receiver.Sound(Receiver.Seen(m.ack, m.ackBits), x.received)
  }

  ghost predicate ReceivedWasSent(x: Peer, y: Peer)
  {
    forall n :: n in x.received ==> n < y.r.totalSent
  }

  ghost predicate Invariant(x: Peer, y: Peer)
    requires Shaped(x.r) && Shaped(y.r)
  {
    && Honest(x) && Honest(y)
    && ReceivedWasSent(x, y) && ReceivedWasSent(y, x)
    && AckAttribution.FlagsSound(x.r, y.received) && AckAttribution.FlagsSound(y.r, x.received)
  }

  lemma SendKeeps(x: Peer, y: Peer, size: nat)
    requires Shaped(x.r) && Shaped(y.r) && Invariant(x, y) && x.r.totalSent < MAX_SEQUENCE - 1
    ensures Shaped(Act(x, Send(size)).r) && Invariant(Act(x, Send(size)), y)
  {
    var t := Act(x, Send(size));
    ReliabilityRuns.RingShapeSend(x.r, size);
    forall j | 0 <= j < CAPACITY && t.r.recent[j].acked
      ensures CAPACITY - j <= t.r.totalSent && t.r.totalSent - (CAPACITY - j) in y.received
    {
      assert t.r.recent[j] == x.r.recent[j + 1];
    }
  }

  lemma ClockKeeps(x: Peer, y: Peer, dt: Elapsed)
    requires Shaped(x.r) && Shaped(y.r) && Invariant(x, y)
    ensures Shaped(Act(x, Clock(dt)).r) && Invariant(Act(x, Clock(dt)), y)
  {
    hide Receiver.Sound, ReliabilityRuns.RingShape;
    if x.r.sentLen > 0 {
      ReliabilityRuns.RingShapeClock(x.r, dt);
      ReliabilityRuns.ClockEffect(x.r, dt);
    }
  }

  lemma DeliverKeeps(x: Peer, y: Peer, m: Message)
    requires Shaped(x.r) && Shaped(y.r) && Invariant(x, y)
    requires m in y.outbox && Unaliased(x, Deliver(m))
    ensures Shaped(Act(x, Deliver(m)).r) && Invariant(Act(x, Deliver(m)), y)
  {
    if m.ack <= x.r.sequence {
      FlagsStaySound(x, y, m);
      DeliverHonest(x, y, m);
      ReliabilityRuns.ReceiveFrame(x.r, ReliabilityRuns.Receive(m.sequence, m.ack, m.ackBits));
      assert m.sequence < y.r.totalSent;
      assert forall n :: n in x.received ==> n in Act(x, Deliver(m)).received;
    }
  }

  lemma DeliverHonest(x: Peer, y: Peer, m: Message)
    requires Shaped(x.r) && Shaped(y.r) && Honest(x) && Honest(y)
    requires m in y.outbox && m.ack <= x.r.sequence
    ensures Honest(Act(x, Deliver(m)))
  {
    var e := ReliabilityRuns.Receive(m.sequence, m.ack, m.ackBits);
    assert Act(x, Deliver(m)).r == ReliabilityRuns.Apply(x.r, e);
    ReliabilityRuns.RingShapeStep(x.r, e);
    ReliabilityRuns.ReceiveFrame(x.r, e);
    StillSound(x.r.seen, x.received, m.sequence);
    ReliabilityRuns.SeenAfter(x.r, m.sequence, m.ack, m.ackBits);
    StillTold(x, m.sequence);
  }

  lemma StillSound(s: Receiver.Seen, received: set<nat>, n: nat)
    requires Receiver.Sound(s, received) && n < SEQUENCE_SPACE
    ensures Receiver.Sound(Receiver.ProcessSequence(s, n), received + {n})
  {
    Receiver.ProcessSequenceSound(s, received, n);
    assert n % SEQUENCE_SPACE == n;
  }

  /** Receiving more never makes an earlier report false. */
  lemma StillTold(x: Peer, n: nat)
    requires Shaped(x.r) && Honest(x)
    ensures forall m :: m in x.outbox ==> Receiver.Sound(Receiver.Seen(m.ack, m.ackBits), x.received + {n})
  {
  }

  lemma FlagsStaySound(x: Peer, y: Peer, m: Message)
    requires Shaped(x.r) && Shaped(y.r) && Honest(y) && ReceivedWasSent(y, x) && x.r.sequence == x.r.totalSent
    requires m in y.outbox && Unaliased(x, Deliver(m)) && m.ack <= x.r.sequence
    requires AckAttribution.FlagsSound(x.r, y.received)
    ensures AckAttribution.FlagsSound(PacketReceived(x.r, m.sequence, m.ack, m.ackBits), y.received)
  {
    var t := PacketReceived(x.r, m.sequence, m.ack, m.ackBits);
    AckAttribution.ReceivedFlags(x.r, m.sequence, m.ack, m.ackBits);
    forall j | 0 <= j < CAPACITY && t.recent[j].acked
      ensures CAPACITY - j <= t.totalSent && t.totalSent - (CAPACITY - j) in y.received
    {
      if !x.r.recent[j].acked {
        HitWasReceived(x, y, m, j);
      }
    }
  }

  lemma HitWasReceived(x: Peer, y: Peer, m: Message, j: nat)
    requires Shaped(x.r) && Shaped(y.r) && Honest(y) && ReceivedWasSent(y, x) && x.r.sequence == x.r.totalSent
    requires m in y.outbox && Unaliased(x, Deliver(m)) && m.ack <= x.r.sequence
    requires x.r.sentLen > 0 && AckCount(x.r.sequence, m.ack) < CAPACITY && j < CAPACITY && !x.r.recent[j].acked
    requires AckAttribution.Hit(AckCount(x.r.sequence, m.ack), m.ackBits, ACK_WALK, j)
    ensures CAPACITY - j <= x.r.totalSent && x.r.totalSent - (CAPACITY - j) in y.received
  {
    var count := AckCount(x.r.sequence, m.ack);
    var p :| 0 <= p < ACK_WALK && Bit(m.ackBits, p) && Slot(count + p) == j;
    assert count + p <= CAPACITY;
    NamedWasReceived(x, y, m, p);
  }

  lemma NamedWasReceived(x: Peer, y: Peer, m: Message, p: nat)
    requires Shaped(x.r) && Shaped(y.r) && Honest(y) && ReceivedWasSent(y, x) && x.r.sequence == x.r.totalSent
    requires m in y.outbox && p < ACK_WALK && Bit(m.ackBits, p)
    requires m.ack < x.r.sequence && x.r.sequence - m.ack + p <= CAPACITY
    ensures p <= m.ack && m.ack - p in y.received
  {
    var n := (m.ack - p) % SEQUENCE_SPACE;
    assert Receiver.Seen(m.ack, m.ackBits).ack == m.ack;
    assert n in y.received;
    assert p > m.ack ==> n == m.ack - p + SEQUENCE_SPACE;
  }

  lemma {:induction false} InvariantAlways(steps: seq<Step>)
    requires Legal(steps) && Clean(steps)
    ensures Invariant(Run(steps).left, Run(steps).right)
  {
    if steps == [] {
      AtStart();
    } else {
      var s, t := Run(Front(steps)), Last(steps);
      InvariantAlways(Front(steps));
      if t.left {
        StepKeeps(s.left, s.right, t.event);
      } else {
        StepKeeps(s.right, s.left, t.event);
      }
    }
  }

  lemma AtStart()
    ensures Invariant(Start().left, Start().right)
  {
    NoBits();
  }

  lemma StepKeeps(x: Peer, y: Peer, e: Event)
    requires Shaped(x.r) && Shaped(y.r) && Invariant(x, y) && Enabled(x, y, e) && Unaliased(x, e)
    ensures Shaped(Act(x, e).r) && Invariant(Act(x, e), y)
  {
    match e
    case Send(size) => SendKeeps(x, y, size);
    case Deliver(m) => DeliverKeeps(x, y, m);
    case Clock(dt) => ClockKeeps(x, y, dt);
  }

  /** End-to-end soundness: in every state the two peers reach, a packet flagged
      acked at its sender has been received by the other side. */
  lemma AckedWasReceived(steps: seq<Step>)
    requires Legal(steps) && Clean(steps)
    ensures AckAttribution.FlagsSound(Run(steps).left.r, Run(steps).right.received)
    ensures AckAttribution.FlagsSound(Run(steps).right.r, Run(steps).left.received)
  {
    InvariantAlways(steps);
  }

  /** Messages whose ack lags the counter by at most five sends cannot alias. */
  lemma PromptIsUnaliased(x: Peer, m: Message)
    requires Shaped(x.r) && x.r.sequence <= m.ack + 5
    ensures Unaliased(x, Deliver(m))
  {
  }

  // ----- without the aliasing condition the property fails

  function Sends(n: nat): seq<Step>
  {
    seq(n, _ => Step(true, Send(0)))
  }

  function SendTimes(x: Peer, n: nat): (t: Peer)
    requires Shaped(x.r)
    ensures Shaped(t.r)
  {
    if n == 0 then x else Act(SendTimes(x, n - 1), Send(0))
  }

  lemma {:induction false} SendTimesTotal(x: Peer, n: nat)
    requires Shaped(x.r)
    ensures SendTimes(x, n).r.totalSent == x.r.totalSent + n
  {
    if n > 0 {
      SendTimesTotal(x, n - 1);
    }
  }

  lemma {:induction false} SendTimesEffect(x: Peer, n: nat)
    requires Shaped(x.r) && x.r.totalSent + n < MAX_SEQUENCE && x.r.sequence == x.r.totalSent
    requires forall j :: 0 <= j < CAPACITY ==> !x.r.recent[j].acked
    ensures var t := SendTimes(x, n);
            && t.received == x.received && t.r.seen == x.r.seen && x.outbox <= t.outbox
            && t.r.totalSent == t.r.sequence == x.r.totalSent + n
            && (forall j :: 0 <= j < CAPACITY ==> !t.r.recent[j].acked)
            && (n > 0 ==> t.r.sentLen > 0)
            && (forall k: nat :: x.r.totalSent <= k < x.r.totalSent + n ==>
                 Message(k, x.r.seen.ack, x.r.seen.ackBits) in t.outbox)
  {
    if n > 0 {
      SendTimesEffect(x, n - 1);
      var q, t := SendTimes(x, n - 1), SendTimes(x, n);
      assert forall j :: 0 <= j < CAPACITY - 1 ==> t.r.recent[j] == q.r.recent[j + 1];
    }
  }

  lemma {:induction false} RunSends(steps: seq<Step>, n: nat)
    requires Legal(steps)
    requires Run(steps).left.r.totalSent + n < MAX_SEQUENCE
    ensures Legal(steps + Sends(n))
    ensures Run(steps + Sends(n)) == Link(SendTimes(Run(steps).left, n), Run(steps).right)
  {
    hide Act;
    if n == 0 {
      assert steps + Sends(0) == steps;
    } else {
      RunSends(steps, n - 1);
      SendTimesTotal(Run(steps).left, n - 1);
      Extend(steps + Sends(n - 1), Step(true, Send(0)));
      assert steps + Sends(n) == steps + Sends(n - 1) + [Step(true, Send(0))];
    }
  }

  lemma Extend(steps: seq<Step>, t: Step)
    requires Legal(steps)
    requires var s := Run(steps);
             if t.left then Enabled(s.left, s.right, t.event) else Enabled(s.right, s.left, t.event)
    ensures Legal(steps + [t])
    ensures var s := Run(steps);
            Run(steps + [t]) ==
            if t.left then Link(Act(s.left, t.event), s.right) else Link(s.left, Act(s.right, t.event))
  {
    assert Front(steps + [t]) == steps;
  }

  function Outbound(): seq<Step>
  {
    Sends(4)
  }

  function Returned(): seq<Step>
  {
    Outbound() + [Step(false, Deliver(Message(1, 0, 0)))] + [Step(false, Deliver(Message(2, 0, 0)))]
    + [Step(false, Deliver(Message(3, 0, 0)))] + [Step(false, Send(0))]
  }

  lemma ThreeArrive()
    ensures Receiver.ProcessSequence(Receiver.NothingSeen, 1) == Receiver.Seen(1, 1)
    ensures Receiver.ProcessSequence(Receiver.Seen(1, 1), 2) == Receiver.Seen(2, 3)
    ensures Receiver.ProcessSequence(Receiver.Seen(2, 3), 3) == Receiver.Seen(3, 7)
  {
    assert ShiftLeft(0, 1) == 0 && ShiftLeft(1, 1) == 2 && ShiftLeft(3, 1) == 6;
    assert SetBit(0, 0) == 1 && SetBit(2, 0) == 3 && SetBit(6, 0) == 7;
  }

  lemma OutboundEffect()
    ensures Legal(Outbound())
    ensures Run(Outbound()) == Link(SendTimes(Start().left, 4), Start().right)
    ensures SendTimes(Start().left, 4).r.totalSent == 4
  {
    SendTimesTotal(Start().left, 4);
    RunSends([], 4);
    assert [] + Sends(4) == Sends(4);
  }

  lemma ReturnedEffect()
    ensures Legal(Returned())
    ensures var s := Run(Returned());
            s.left == SendTimes(Start().left, 4) && s.right.received == {1, 2, 3} && Message(0, 3, 7) in s.right.outbox
  {
    OutboundEffect();
    ThreeArrive();
    SendTimesEffect(Start().left, 4);
    var x := SendTimes(Start().left, 4);
    var s1, s2, s3 := Deliver(Message(1, 0, 0)), Deliver(Message(2, 0, 0)), Deliver(Message(3, 0, 0));
    Extend(Outbound(), Step(false, s1));
    Extend(Outbound() + [Step(false, s1)], Step(false, s2));
    Extend(Outbound() + [Step(false, s1)] + [Step(false, s2)], Step(false, s3));
    Extend(Outbound() + [Step(false, s1)] + [Step(false, s2)] + [Step(false, s3)], Step(false, Send(0)));
  }

  lemma DelayedEffect(n: nat)
    requires n < 60000
    ensures var run := Returned() + Sends(n);
            && Legal(run)
            && Run(run).right.received == {1, 2, 3} && Message(0, 3, 7) in Run(run).right.outbox
            && Run(run).left.r.totalSent == Run(run).left.r.sequence == 4 + n
            && (forall j :: 0 <= j < CAPACITY ==> !Run(run).left.r.recent[j].acked)
            && (n > 0 ==> Run(run).left.r.sentLen > 0)
  {
    ReturnedEffect();
    SendTimesEffect(Start().left, 4);
    var x := Run(Returned()).left;
    RunSends(Returned(), n);
    SendTimesEffect(x, n);
  }

  function AliasingRun(n: nat): seq<Step>
  {
    Returned() + Sends(n) + [Step(true, Deliver(Message(0, 3, 7)))]
  }

  /** Four packets go out, the last three arrive and are acknowledged, and the
      acknowledgement is delayed while 33 more packets go out. Bit 2 then lands
      on packet 36, which nobody has received. */
  lemma AliasingRunFails(n: nat)
    requires n == CAPACITY - 2
    ensures var run := AliasingRun(n);
            Legal(run) && !Clean(run) && !AckAttribution.FlagsSound(Run(run).left.r, Run(run).right.received)
  {
    var m := Message(0, 3, 7);
    DelayedEffect(n);
    Extend(Returned() + Sends(n), Step(true, Deliver(m)));
    assert Front(AliasingRun(n)) == Returned() + Sends(n);
    BitsOfSeven();
    var x := Run(Returned() + Sends(n)).left;
    StrayNewest(x, m);
    NewestFlagged(x, m);
  }

  lemma BitsOfSeven()
    ensures Bit(7, 2)
  {
    assert Bit(1, 0);
  }

  lemma StrayNewest(x: Peer, m: Message)
    requires Shaped(x.r) && x.r.sentLen > 0 && x.r.sequence == m.ack + 34
    requires Bit(m.ackBits, 2) && !x.r.recent[CAPACITY - 1].acked
    ensures !Unaliased(x, Deliver(m))
  {
    assert x.r.sequence - m.ack + 2 > CAPACITY && Slot(x.r.sequence - m.ack + 2) == CAPACITY - 1;
  }

  lemma NewestFlagged(x: Peer, m: Message)
    requires Shaped(x.r) && x.r.sequence == m.ack + 34 && x.r.sentLen > 0 && Bit(m.ackBits, 2)
    ensures Act(x, Deliver(m)).r.recent[CAPACITY - 1].acked
    ensures Act(x, Deliver(m)).r.totalSent == x.r.totalSent
  {
    var q := x.r.(seen := Receiver.ProcessSequence(x.r.seen, m.sequence));
    AckAttribution.WalkFlags(q, 34, m.ackBits, ACK_WALK);
    ReliabilityRuns.AckStepsFrame(q, 34, m.ackBits, ACK_WALK);
    assert Slot(34 + 2) == CAPACITY - 1;
    assert AckAttribution.Hit(34, m.ackBits, ACK_WALK, CAPACITY - 1);
  }
}
