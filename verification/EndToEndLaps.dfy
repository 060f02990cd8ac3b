/** Two peers as in EndToEnd, but with no bound on the number of packets: the
    sender's counter may come round any number of times. */
module EndToEndLaps {
  import opened AckBits
  import opened Basics
  import opened MachineInts
  import opened SequenceNumbers
  import opened ReliabilityModel
  import AckAttribution
  import Receiver
  import ReliabilityRuns

  // ----- packet numbers and the receiver's numbers

  /** The receiver's number for packet k: the sender's counter skips one value in each lap of 65536. */
  function Unwrapped(k: nat): nat
  {
    SEQUENCE_SPACE * (k / MAX_SEQUENCE) + k % MAX_SEQUENCE
  }

  /** The packet that has the number, if any has. */
  function PacketOf(n: nat): nat
  {
    MAX_SEQUENCE * (n / SEQUENCE_SPACE) + n % SEQUENCE_SPACE
  }

  lemma UnwrappedTwice(k: nat)
    ensures PacketOf(Unwrapped(k)) == k && Unwrapped(k) % SEQUENCE_SPACE == k % MAX_SEQUENCE
  {
    var q, s := k / MAX_SEQUENCE, k % MAX_SEQUENCE;
    assert (SEQUENCE_SPACE * q + s) / SEQUENCE_SPACE == q && (SEQUENCE_SPACE * q + s) % SEQUENCE_SPACE == s;
  }

  lemma UnwrappedGrows(j: nat, k: nat)
    requires j < k
    ensures Unwrapped(j) < Unwrapped(k)
  {
    assert j / MAX_SEQUENCE <= k / MAX_SEQUENCE;
  }

  // ----- the network

  /** The three header fields, and for the proofs the packet's number and the number `ack` stands for. */
  datatype Message = Message(sequence: uint32, ack: uint32, ackBits: uint32, number: nat, newest: nat)

  /** One peer; `remote` is what its receiving half has seen, on unwrapped numbers. */
  datatype Peer = Peer(r: Reliability, remote: Receiver.Remote, received: set<nat>, outbox: set<Message>)

  datatype Event = Send(size: nat) | Deliver(message: Message) | Clock(dt: Elapsed)

  datatype Step = Step(left: bool, event: Event)

  datatype Link = Link(left: Peer, right: Peer)

  function Start(): Link
  {
    var p := Peer(Cleared(), Receiver.NothingKept, {}, {});
    Link(p, p)
  }

  function Act(x: Peer, e: Event): Peer
    requires Shaped(x.r)
  {
    match e
    case Send(size) =>
      var m := Message(x.r.sequence, x.r.seen.ack, x.r.seen.ackBits, x.r.totalSent, x.remote.newest);
      x.(r := PacketSent(x.r, size), outbox := x.outbox + {m})
    case Deliver(m) =>
      if m.ack <= x.r.sequence
      then Peer(PacketReceived(x.r, m.sequence, m.ack, m.ackBits), Receiver.Arrive(x.remote, Unwrapped(m.number)),
                x.received + {m.number}, x.outbox)
      else x
    case Clock(dt) => x.(r := Update(x.r, dt))
  }

  /** Only what the other side sent is delivered, at any time and any number of times. */
  predicate Enabled(y: Peer, e: Event)
  {
    e.Deliver? ==> e.message in y.outbox
  }

  /** Bit p lands where it may. The slot is flagged already; or it is in the ring, and
      is of the counter's present lap, or bit p + 1 is set too: before the wrap that
      is the bit that names the slot's packet. */
  predicate LandsRight(r: Reliability, m: Message, p: nat)
    requires Shaped(r) && m.ack <= r.sequence < m.ack + CAPACITY && p < ACK_WALK
  {
    var d := r.sequence - m.ack + p;
    r.recent[Slot(d)].acked || (d <= CAPACITY && (d <= r.sequence || Bit(m.ackBits, p + 1)))
  }

  /** What an accepted message must meet: its number lies within 32767 of the newest
      received; and where its ack is looked at, the ack too is at most 32767 behind,
      and each set bit lands where it may. */
  predicate Near(x: Peer, e: Event)
    requires Shaped(x.r)
  {
    e.Deliver? && e.message.ack <= x.r.sequence ==>
      && Receiver.InWindow(x.remote, Unwrapped(e.message.number))
      && (x.r.sentLen > 0 && x.r.sequence < e.message.ack + CAPACITY ==>
            && Unwrapped(x.r.totalSent) <= e.message.newest + 32767
            && forall p :: 0 <= p < ACK_WALK && Bit(e.message.ackBits, p) ==> LandsRight(x.r, e.message, p))
  }

  function Run(steps: seq<Step>): (s: Link)
    ensures Shaped(s.left.r) && Shaped(s.right.r)
  {
    if steps == [] then Start()
    else
      var s, t := Run(Front(steps)), Last(steps);
      if t.left then Link(Act(s.left, t.event), s.right) else Link(s.left, Act(s.right, t.event))
  }

  /** Every step was enabled, and every message near when it was accepted. */
  predicate Legal(steps: seq<Step>)
  {
    steps == [] || (
      var s, t := Run(Front(steps)), Last(steps);
      && Legal(Front(steps))
      && if t.left then Enabled(s.right, t.event) && Near(s.left, t.event)
         else Enabled(s.left, t.event) && Near(s.right, t.event))
  }

  // ----- the invariant

  /** The number is a packet's, and that packet is in the set. */
  ghost predicate NumbersOne(n: int, packets: set<nat>)
  {
    n >= 0 && Unwrapped(PacketOf(n)) == n && PacketOf(n) in packets
  }

  ghost predicate SeenTrue(x: Peer)
  {
    && Receiver.Represents(x.r.seen, x.remote)
    && (forall n :: n in x.remote.kept ==> NumbersOne(n, x.received))
    && (x.remote.newest == 0 || NumbersOne(x.remote.newest, x.received))
  }

  /** What a message says of its sender was true and stays true. */
  ghost predicate Told(m: Message, x: Peer)
  {
    && m.number < x.r.totalSent && m.sequence == m.number % MAX_SEQUENCE && m.ack == m.newest % SEQUENCE_SPACE
    && (m.newest == 0 || NumbersOne(m.newest, x.received))
    && (forall p :: 0 <= p < 32 && Bit(m.ackBits, p) ==> NumbersOne(m.newest - p, x.received))
  }

  ghost predicate Honest(x: Peer)
    requires Shaped(x.r)
  {
    ReliabilityRuns.RingShape(x.r) && SeenTrue(x) && forall m :: m in x.outbox ==> Told(m, x)
  }

  ghost predicate ReceivedWasSent(x: Peer, y: Peer)
  {
    forall n :: n in x.received ==> n < y.r.totalSent
  }

  ghost predicate Invariant(x: Peer, y: Peer)
    requires Shaped(x.r) && Shaped(y.r)
  {
    && Honest(x) && Honest(y)
    && ReceivedWasSent(x, y) && ReceivedWasSent(y, x)
    && AckAttribution.FlagsSound(x.r, y.received) && AckAttribution.FlagsSound(y.r, x.received)
  }

  // ----- sends and the clock

  lemma SendTrue(x: Peer, size: nat)
    requires Shaped(x.r) && Honest(x)
    ensures Honest(Act(x, Send(size)))
  {
    var t := Act(x, Send(size));
    ReliabilityRuns.RingShapeSend(x.r, size);
    assert SeenTrue(t);
    forall m | m in t.outbox
      ensures Told(m, t)
    {
      if m in x.outbox {
        assert Told(m, x);
      }
    }
  }

  lemma SendKeeps(x: Peer, y: Peer, size: nat)
    requires Shaped(x.r) && Shaped(y.r) && Invariant(x, y)
    ensures Invariant(Act(x, Send(size)), y)
  {
    SendTrue(x, size);
    hide Honest;
    var t := Act(x, Send(size));
    forall j | 0 <= j < CAPACITY && t.r.recent[j].acked
      ensures CAPACITY - j <= t.r.totalSent && t.r.totalSent - (CAPACITY - j) in y.received
    {
      assert t.r.recent[j] == x.r.recent[j + 1];
    }
  }

  lemma ClockKeeps(x: Peer, y: Peer, dt: Elapsed)
    requires Shaped(x.r) && Shaped(y.r) && Invariant(x, y)
    ensures Invariant(Act(x, Clock(dt)), y)
  {
    hide SeenTrue, NumbersOne, ReliabilityRuns.RingShape;
    if x.r.sentLen > 0 {
      ReliabilityRuns.RingShapeClock(x.r, dt);
      ReliabilityRuns.ClockEffect(x.r, dt);
      var t := Act(x, Clock(dt));
      assert SeenTrue(t) by { SameSeen(x, t); }
      assert forall m :: m in t.outbox ==> Told(m, x);
    }
  }

  lemma SameSeen(x: Peer, t: Peer)
    requires SeenTrue(x) && t.r.seen == x.r.seen && t.remote == x.remote && t.received == x.received
    ensures SeenTrue(t)
  {
  }

  // ----- deliveries

  lemma MorePackets(n: int, packets: set<nat>, k: nat)
    requires NumbersOne(n, packets)
    ensures NumbersOne(n, packets + {k})
  {
  }

  lemma DeliverSeen(x: Peer, m: Message)
    requires Shaped(x.r) && SeenTrue(x) && m.ack <= x.r.sequence && m.sequence == m.number % MAX_SEQUENCE
    requires Receiver.InWindow(x.remote, Unwrapped(m.number))
    ensures SeenTrue(Act(x, Deliver(m)))
  {
    var n, t := Unwrapped(m.number), Act(x, Deliver(m));
    UnwrappedTwice(m.number);
    Receiver.ProcessSequenceRefines(x.r.seen, x.remote, n);
    ReliabilityRuns.ReceiveFrame(x.r, ReliabilityRuns.Receive(m.sequence, m.ack, m.ackBits));
    ReliabilityRuns.SeenAfter(x.r, m.sequence, m.ack, m.ackBits);
    assert NumbersOne(n, t.received);
    forall k | k in t.remote.kept
      ensures NumbersOne(k, t.received)
    {
      if k in x.remote.kept {
        MorePackets(k, x.received, m.number);
      }
    }
    if x.remote.newest != 0 {
      MorePackets(x.remote.newest, x.received, m.number);
    }
  }

  /** Receiving more never makes an earlier message false. */
  lemma StillTold(m: Message, x: Peer, t: Peer, k: nat)
    requires Told(m, x) && t.r.totalSent == x.r.totalSent && t.received == x.received + {k}
    ensures Told(m, t)
  {
    if m.newest != 0 {
      MorePackets(m.newest, x.received, k);
    }
    forall p | 0 <= p < 32 && Bit(m.ackBits, p)
      ensures NumbersOne(m.newest - p, t.received)
    {
      MorePackets(m.newest - p, x.received, k);
    }
  }

  lemma DeliverHonest(x: Peer, m: Message)
    requires Shaped(x.r) && Honest(x) && m.ack <= x.r.sequence && m.sequence == m.number % MAX_SEQUENCE
    requires Receiver.InWindow(x.remote, Unwrapped(m.number))
    ensures Honest(Act(x, Deliver(m)))
  {
    var e, t := ReliabilityRuns.Receive(m.sequence, m.ack, m.ackBits), Act(x, Deliver(m));
    ReliabilityRuns.RingShapeStep(x.r, e);
    ReliabilityRuns.ReceiveFrame(x.r, e);
    DeliverSeen(x, m);
    hide SeenTrue, NumbersOne, Told, ReliabilityRuns.RingShape;
    assert t.r == ReliabilityRuns.Apply(x.r, e);
    forall o | o in t.outbox
      ensures Told(o, t)
    {
      StillTold(o, x, t, m.number);
    }
  }

  /** Inside the present lap a bit names the packet in the slot it lands on; across
      the wrap the next bit does. */
  lemma NamedIsSlot(total: nat, m: Message, p: nat)
    requires m.newest < Unwrapped(total) <= m.newest + 32767 && m.ack == m.newest % SEQUENCE_SPACE
    requires m.ack < total % MAX_SEQUENCE < m.ack + CAPACITY && p < ACK_WALK
    ensures p <= m.ack ==> p <= m.newest && PacketOf(m.newest - p) == total - (total % MAX_SEQUENCE - m.ack + p)
    ensures m.ack < p < m.newest ==> PacketOf(m.newest - (p + 1)) == total - (total % MAX_SEQUENCE - m.ack + p)
  {
    var q, lap := m.newest / SEQUENCE_SPACE, total / MAX_SEQUENCE;
    assert m.newest == SEQUENCE_SPACE * q + m.ack && total == MAX_SEQUENCE * lap + total % MAX_SEQUENCE;
    assert Unwrapped(total) - m.newest == SEQUENCE_SPACE * (lap - q) + (total % MAX_SEQUENCE - m.ack);
    assert q == lap;
    if p <= m.ack {
      assert m.newest - p == SEQUENCE_SPACE * q + (m.ack - p);
      assert (m.newest - p) / SEQUENCE_SPACE == q && (m.newest - p) % SEQUENCE_SPACE == m.ack - p;
    } else if p < m.newest {
      var n := m.newest - (p + 1);
      assert n == SEQUENCE_SPACE * (q - 1) + (m.ack - p + MAX_SEQUENCE);
      assert n / SEQUENCE_SPACE == q - 1 && n % SEQUENCE_SPACE == m.ack - p + MAX_SEQUENCE;
    }
  }

  lemma NewestIsBehind(m: Message, x: Peer, y: Peer)
    requires Told(m, y) && ReceivedWasSent(y, x) && x.r.totalSent > 0
    ensures m.newest < Unwrapped(x.r.totalSent)
  {
    if m.newest == 0 {
      UnwrappedGrows(0, x.r.totalSent);
    } else {
      UnwrappedGrows(PacketOf(m.newest), x.r.totalSent);
    }
  }

  /** The bit that lands on an unflagged slot lies in the ring, and it or the next bit names what the slot holds. */
  lemma HitBit(x: Peer, m: Message, j: nat) returns (p: nat)
    requires Shaped(x.r) && m.ack <= x.r.sequence && Near(x, Deliver(m)) && j < CAPACITY && !x.r.recent[j].acked
    requires x.r.sentLen > 0 && AckCount(x.r.sequence, m.ack) < CAPACITY
    requires AckAttribution.Hit(AckCount(x.r.sequence, m.ack), m.ackBits, ACK_WALK, j)
    ensures p < ACK_WALK && m.ack < x.r.sequence < m.ack + CAPACITY && j == CAPACITY - (x.r.sequence - m.ack + p)
    ensures if p <= m.ack then Bit(m.ackBits, p) else Bit(m.ackBits, p + 1)
    ensures Unwrapped(x.r.totalSent) <= m.newest + 32767
  {
    hide Unwrapped;
    var count := x.r.sequence - m.ack;
    p :| 0 <= p < ACK_WALK && Bit(m.ackBits, p) && Slot(count + p) == j;
    assert LandsRight(x.r, m, p);
  }

  lemma HitWasReceived(x: Peer, y: Peer, m: Message, j: nat)
    requires Shaped(x.r) && ReliabilityRuns.RingShape(x.r) && Told(m, y) && ReceivedWasSent(y, x)
    requires m.ack <= x.r.sequence && Near(x, Deliver(m)) && j < CAPACITY && !x.r.recent[j].acked
    requires x.r.sentLen > 0 && AckCount(x.r.sequence, m.ack) < CAPACITY
    requires AckAttribution.Hit(AckCount(x.r.sequence, m.ack), m.ackBits, ACK_WALK, j)
    ensures CAPACITY - j <= x.r.totalSent && x.r.totalSent - (CAPACITY - j) in y.received
  {
    hide PacketOf, Unwrapped, Near, Bit, Slot, AckAttribution.Hit;
    var p := HitBit(x, m, j);
    assert NumbersOne(m.newest - if p <= m.ack then p else p + 1, y.received);
    NewestIsBehind(m, x, y);
    hide Told, ReceivedWasSent;
    NamedIsSlot(x.r.totalSent, m, p);
  }

  lemma FlagsStaySound(x: Peer, y: Peer, m: Message)
    requires Shaped(x.r) && ReliabilityRuns.RingShape(x.r) && Told(m, y) && ReceivedWasSent(y, x)
    requires m.ack <= x.r.sequence && Near(x, Deliver(m)) && AckAttribution.FlagsSound(x.r, y.received)
    ensures AckAttribution.FlagsSound(PacketReceived(x.r, m.sequence, m.ack, m.ackBits), y.received)
  {
    hide Near, Told, ReliabilityRuns.RingShape;
    var t := PacketReceived(x.r, m.sequence, m.ack, m.ackBits);
    AckAttribution.ReceivedFlags(x.r, m.sequence, m.ack, m.ackBits);
    forall j | 0 <= j < CAPACITY && t.recent[j].acked
      ensures CAPACITY - j <= t.totalSent && t.totalSent - (CAPACITY - j) in y.received
    {
      if !x.r.recent[j].acked {
        HitWasReceived(x, y, m, j);
      }
    }
  }

  lemma DeliverKeeps(x: Peer, y: Peer, m: Message)
    requires Shaped(x.r) && Shaped(y.r) && Invariant(x, y) && m in y.outbox && Near(x, Deliver(m))
    ensures Invariant(Act(x, Deliver(m)), y)
  {
    if m.ack <= x.r.sequence {
      assert Told(m, y);
      FlagsStaySound(x, y, m);
      DeliverHonest(x, m);
      ReliabilityRuns.ReceiveFrame(x.r, ReliabilityRuns.Receive(m.sequence, m.ack, m.ackBits));
      hide Honest;
      assert forall n :: n in x.received ==> n in Act(x, Deliver(m)).received;
    }
  }

  // ----- every state reached

  lemma StepKeeps(x: Peer, y: Peer, e: Event)
    requires Shaped(x.r) && Shaped(y.r) && Invariant(x, y) && Enabled(y, e) && Near(x, e)
    ensures Shaped(Act(x, e).r) && Invariant(Act(x, e), y)
  {
    hide Invariant;
    match e
    case Send(size) => SendKeeps(x, y, size);
    case Deliver(m) => DeliverKeeps(x, y, m);
    case Clock(dt) => ClockKeeps(x, y, dt);
  }

  lemma {:induction false} InvariantAlways(steps: seq<Step>)
    requires Legal(steps)
    ensures Invariant(Run(steps).left, Run(steps).right)
  {
    hide Act;
    if steps == [] {
      NoBits();
    } else {
      var s, t := Run(Front(steps)), Last(steps);
      InvariantAlways(Front(steps));
      if t.left {
        StepKeeps(s.left, s.right, t.event);
      } else {
        StepKeeps(s.right, s.left, t.event);
      }
    }
  }

  /** End-to-end soundness with no bound on the sends: a packet flagged acked, by its
      number since the start, has been received by the other side. */
  lemma AckedWasReceived(steps: seq<Step>)
    requires Legal(steps)
    ensures AckAttribution.FlagsSound(Run(steps).left.r, Run(steps).right.received)
    ensures AckAttribution.FlagsSound(Run(steps).right.r, Run(steps).left.received)
  {
    InvariantAlways(steps);
  }

  /** Where nothing was lost and the ack is prompt, every bit lands where it may, at a
      wrap as elsewhere. */
  lemma PromptFullLandsRight(r: Reliability, m: Message, p: nat)
    requires Shaped(r) && m.ack <= r.sequence <= m.ack + 5 && p < ACK_WALK
    requires forall q :: 0 <= q < 32 ==> Bit(m.ackBits, q)
    ensures LandsRight(r, m, p)
  {
  }
}
