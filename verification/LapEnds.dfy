/** The last packet of each lap of the sender's counter: no acknowledgement ever reaches it. */
module LapEnds {
  import opened Basics
  import opened AckBits
  import opened MachineInts
  import opened SequenceNumbers
  import opened ReliabilityModel
  import opened EndToEndLaps
  import AckAttribution
  import ReliabilityRuns

  /** Packet k went out under the counter's greatest value. */
  predicate EndsLap(k: int)
  {
    k % MAX_SEQUENCE == MAX_SEQUENCE - 1
  }

  function Side(s: Link, left: bool): Peer
  {
    if left then s.left else s.right
  }

  ghost predicate LapEndsUnflagged(r: Reliability)
    requires Shaped(r)
  {
    forall j :: 0 <= j < CAPACITY && CAPACITY - j <= r.totalSent && EndsLap(r.totalSent - (CAPACITY - j)) ==>
                  !r.recent[j].acked
  }

  // ----- the flags

  /** The receiver has a number between those of a lap's last packet and the next
      packet, which no packet has; it is the one the bit landing there would name. */
  lemma NoneBetweenLaps(n: int, packets: set<nat>)
    requires n % SEQUENCE_SPACE == MAX_SEQUENCE
    ensures !NumbersOne(n, packets)
  {
    if n >= 0 {
      var q := n / SEQUENCE_SPACE;
      assert n == SEQUENCE_SPACE * q + MAX_SEQUENCE;
      assert PacketOf(n) == MAX_SEQUENCE * (q + 1);
      assert PacketOf(n) / MAX_SEQUENCE == q + 1 && PacketOf(n) % MAX_SEQUENCE == 0;
    }
  }

  /** The slot of a lap's last packet is one further back than the counter has come. */
  lemma LapEndSlot(total: nat, d: nat)
    requires 0 < d <= CAPACITY && d <= total
    ensures EndsLap(total - d) <==> d == total % MAX_SEQUENCE + 1
  {
    AckAttribution.Back(total, d);
  }

  lemma NeverHit(x: Peer, y: Peer, m: Message, j: nat)
    requires Shaped(x.r) && ReliabilityRuns.RingShape(x.r) && Told(m, y)
    requires m.ack <= x.r.sequence && Near(x, Deliver(m)) && j < CAPACITY && !x.r.recent[j].acked
    requires CAPACITY - j <= x.r.totalSent && EndsLap(x.r.totalSent - (CAPACITY - j))
    requires x.r.sentLen > 0 && AckCount(x.r.sequence, m.ack) < CAPACITY
    ensures !AckAttribution.Hit(AckCount(x.r.sequence, m.ack), m.ackBits, ACK_WALK, j)
  {
    hide NumbersOne, EndsLap;
    var count := x.r.sequence - m.ack;
    LapEndSlot(x.r.totalSent, CAPACITY - j);
    forall p | 0 <= p < ACK_WALK && Bit(m.ackBits, p)
      ensures Slot(count + p) != j
    {
      assert LandsRight(x.r, m, p);
      if Slot(count + p) == j {
        assert p == m.ack + 1;
        NoneBetweenLaps(m.newest - p, y.received);
        assert false;
      }
    }
  }

  lemma DeliverUnflagged(x: Peer, y: Peer, m: Message)
    requires Shaped(x.r) && Shaped(y.r) && Invariant(x, y) && m in y.outbox && Near(x, Deliver(m))
    requires LapEndsUnflagged(x.r)
    ensures LapEndsUnflagged(Act(x, Deliver(m)).r)
  {
    if m.ack <= x.r.sequence {
      var t := Act(x, Deliver(m)).r;
      assert Told(m, y);
      AckAttribution.ReceivedFlags(x.r, m.sequence, m.ack, m.ackBits);
      forall j | 0 <= j < CAPACITY && CAPACITY - j <= t.totalSent && EndsLap(t.totalSent - (CAPACITY - j))
        ensures !t.recent[j].acked
      {
        if x.r.sentLen > 0 && AckCount(x.r.sequence, m.ack) < CAPACITY {
          NeverHit(x, y, m, j);
        }
      }
    }
  }

  lemma StepUnflagged(x: Peer, y: Peer, e: Event)
    requires Shaped(x.r) && Shaped(y.r) && Invariant(x, y) && Enabled(y, e) && Near(x, e) && LapEndsUnflagged(x.r)
    ensures LapEndsUnflagged(Act(x, e).r)
  {
    hide Invariant, EndsLap;
    var t := Act(x, e).r;
    match e
    case Send(size) => assert forall j :: 0 <= j < CAPACITY - 1 ==> t.recent[j] == x.r.recent[j + 1];
    case Deliver(m) => DeliverUnflagged(x, y, m);
    case Clock(dt) =>
      if x.r.sentLen > 0 {
        ReliabilityRuns.ClockEffect(x.r, dt);
      }
  }

  /** However often the counter comes round, the last packet of a lap is never flagged
      acked, received or not. */
  lemma {:induction false} LapEndsNeverFlagged(steps: seq<Step>)
    requires Legal(steps)
    ensures LapEndsUnflagged(Run(steps).left.r) && LapEndsUnflagged(Run(steps).right.r)
  {
    if steps != [] {
      var s, t := Run(Front(steps)), Last(steps);
      LapEndsNeverFlagged(Front(steps));
      InvariantAlways(Front(steps));
      if t.left {
        StepUnflagged(s.left, s.right, t.event);
      } else {
        StepUnflagged(s.right, s.left, t.event);
      }
    }
  }

  lemma NamedInVain(r: Reliability, m: Message, packets: set<nat>)
    requires Shaped(r) && ReliabilityRuns.RingShape(r) && LapEndsUnflagged(r)
    requires m.ack == m.newest % SEQUENCE_SPACE
    requires forall p :: 0 <= p < 32 && Bit(m.ackBits, p) ==> NumbersOne(m.newest - p, packets)
    requires r.totalSent >= MAX_SEQUENCE && m.ack < r.sequence < CAPACITY
    requires AckAttribution.LookedAt(m.ackBits, m.ack + 2)
    ensures !AckAttribution.MissesNone(r, m.ack, m.ackBits, m.ack + 2)
  {
    hide EndsLap, NumbersOne;
    var d := r.sequence + 1;
    LapEndSlot(r.totalSent, d);
    NoneBetweenLaps(m.newest - (m.ack + 1), packets);
    assert !r.recent[CAPACITY - d].acked && !Bit(m.ackBits, m.ack + 1);
  }

  /** An acknowledgement that names the last packet of the lap before is never
      attributed exactly: that packet stays unflagged. */
  lemma LapEndNamedInVain(steps: seq<Step>, left: bool, m: Message)
    requires Legal(steps) && m in Side(Run(steps), !left).outbox
    requires var r := Side(Run(steps), left).r;
             && r.sentLen > 0 && r.totalSent >= MAX_SEQUENCE
             && m.ack < r.sequence < CAPACITY && AckAttribution.LookedAt(m.ackBits, m.ack + 2)
    ensures var r := Side(Run(steps), left).r;
            !AckAttribution.FlaggedExactly(r, ProcessAck(r, m.ack, m.ackBits), m.ack, m.ackBits)
  {
    hide Run, Legal, ProcessAck, LapEndsUnflagged, AckAttribution.FlaggedExactly, AckAttribution.MissesNone;
    hide AckAttribution.LandsRight, NumbersOne, ReliabilityRuns.RingShape;
    var x, y := Side(Run(steps), left), Side(Run(steps), !left);
    InvariantAlways(steps);
    LapEndsNeverFlagged(steps);
    assert Told(m, y);
    NamedInVain(x.r, m, y.received);
    AckAttribution.AttributionExactIff(x.r, m.ack, m.ackBits);
  }

  // ----- the accounts

  /** The steps of one side, as events of its record. */
  function EventsOf(steps: seq<Step>, left: bool): seq<ReliabilityRuns.Event>
  {
    if steps == [] then []
    else
      var before, t := EventsOf(Front(steps), left), Last(steps);
      if t.left != left then before
      else before + [OnRecord(t.event)]
  }

  function OnRecord(e: Event): ReliabilityRuns.Event
  {
    match e
    case Send(size) => ReliabilityRuns.Send(size)
    case Deliver(m) => ReliabilityRuns.Receive(m.sequence, m.ack, m.ackBits)
    case Clock(dt) => ReliabilityRuns.Clock(dt)
  }

  lemma ActOnRecord(x: Peer, e: Event)
    requires Shaped(x.r)
    ensures Act(x, e).r == ReliabilityRuns.Apply(x.r, OnRecord(e))
  {
    hide PacketSent, PacketReceived, Update;
  }

  lemma {:induction false} SideOfRun(steps: seq<Step>, left: bool)
    ensures Side(Run(steps), left).r == ReliabilityRuns.Run(EventsOf(steps, left))
  {
    hide Act, ReliabilityRuns.Apply;
    if steps != [] {
      var before, after := EventsOf(Front(steps), left), EventsOf(steps, left);
      SideOfRun(Front(steps), left);
      ActOnRecord(Side(Run(Front(steps)), left), Last(steps).event);
      if Last(steps).left == left {
        assert Front(after) == before;
      }
    }
  }

  ghost predicate LapEndsNotAcked(f: seq<ReliabilityRuns.Fate>)
  {
    forall k :: 0 <= k < |f| && EndsLap(k) ==> !f[k].LeftAcked?
  }

  lemma {:induction false} ExpiryNotAcked(r: Reliability, f: seq<ReliabilityRuns.Fate>)
    requires Shaped(r) && r.sentLen <= |f| == r.totalSent && LapEndsUnflagged(r) && LapEndsNotAcked(f)
    ensures LapEndsNotAcked(ReliabilityRuns.FatesOfExpiry(r, f))
    decreases r.sentLen
  {
    hide EndsLap;
    if SentExpired(r) {
      var front, i := r.recent[CAPACITY - r.sentLen], |f| - r.sentLen;
      var x := if front.acked then ReliabilityRuns.LeftAcked else ReliabilityRuns.Lost(front.time);
      ExpiryNotAcked(DropSent(r), f[i := x]);
    }
  }

  lemma StepNotAcked(r: Reliability, f: seq<ReliabilityRuns.Fate>, e: ReliabilityRuns.Event)
    requires Shaped(r) && r.sentLen <= |f| == r.totalSent && LapEndsUnflagged(r) && LapEndsNotAcked(f)
    ensures LapEndsNotAcked(ReliabilityRuns.FatesStep(r, f, e))
  {
    hide EndsLap;
    if e.Clock? {
      ExpiryNotAcked(r.(recent := Aged(r.recent, e.dt)), f);
    }
  }

  lemma {:induction false} NeverLeftAcked(steps: seq<Step>, left: bool)
    requires Legal(steps)
    ensures LapEndsNotAcked(ReliabilityRuns.Fates(EventsOf(steps, left)))
  {
    if steps != [] {
      NeverLeftAcked(Front(steps), left);
      if Last(steps).left == left {
        var before, after := EventsOf(Front(steps), left), EventsOf(steps, left);
        assert Front(after) == before;
        LapEndsNeverFlagged(Front(steps));
        SideOfRun(Front(steps), left);
        ReliabilityRuns.RingShapeAlways(before);
        StepNotAcked(ReliabilityRuns.Run(before), ReliabilityRuns.Fates(before), Last(after));
      }
    }
  }

  /** So each such packet, once it has left the sent window, has been counted lost or
      was overwritten. */
  lemma LapEndsCountLost(steps: seq<Step>, left: bool, k: nat)
    requires Legal(steps) && EndsLap(k)
    requires var r := Side(Run(steps), left).r; k < r.totalSent - r.sentLen
    ensures var f := ReliabilityRuns.Fates(EventsOf(steps, left));
            k < |f| && (f[k].Lost? || f[k].Overwritten?)
  {
    NeverLeftAcked(steps, left);
    SideOfRun(steps, left);
    ReliabilityRuns.Conservation(EventsOf(steps, left));
  }
}
