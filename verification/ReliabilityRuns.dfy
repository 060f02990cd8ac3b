/** Whole runs of one reliability record: sends, receives and clock updates in any order. */
module ReliabilityRuns {
  import opened Basics
  import opened MachineInts
  import opened SequenceNumbers
  import opened ReliabilityModel

  /** `Receive` carries the guard of streamReceive: an ack beyond the next
      sequence number makes the whole packet be ignored. */
  datatype Event = Send(size: nat) | Receive(sequence: uint32, ack: uint32, ackBits: uint32) | Clock(dt: Elapsed)

  function Apply(r: Reliability, e: Event): (t: Reliability)
    requires Shaped(r)
    ensures Shaped(t)
  {
    match e
    case Send(size) => PacketSent(r, size)
    case Receive(sequence, ack, ackBits) =>
      if ack <= r.sequence then PacketReceived(r, sequence, ack, ackBits) else r
    case Clock(dt) => Update(r, dt)
  }

  function Run(events: seq<Event>): (r: Reliability)
    ensures Shaped(r)
  {
    if events == [] then Cleared() else Apply(Run(Front(events)), Last(events))
  }

  // ----- what an acknowledgement leaves alone

  /** Same packets, except that flags may have been raised. */
  ghost predicate OnlyFlags(s: seq<Packet>, t: seq<Packet>)
  {
    && |s| == |t|
    && forall i :: 0 <= i < |s| ==> t[i].(acked := true) == s[i].(acked := true) && (s[i].acked ==> t[i].acked)
  }

  lemma {:induction false} AckStepsFrame(r: Reliability, count: nat, ackBits: uint32, n: nat)
    requires Shaped(r) && count < CAPACITY && n <= ACK_WALK
    ensures var t := AckSteps(r, count, ackBits, n);
            OnlyFlags(r.recent, t.recent) && t == r.(recent := t.recent, totalAcked := t.totalAcked, rtt := t.rtt)
  {
    if n > 0 {
      AckStepsFrame(r, count, ackBits, n - 1);
    }
  }

  lemma ReceiveFrame(r: Reliability, e: Event)
    requires Shaped(r) && e.Receive?
    ensures var t := Apply(r, e);
            && OnlyFlags(r.recent, t.recent)
            && t == r.(recent := t.recent, seen := t.seen, totalReceived := t.totalReceived,
                       totalAcked := t.totalAcked, rtt := t.rtt)
  {
    var q := r.(seen := Receiver.ProcessSequence(r.seen, e.sequence));
    var count := AckCount(r.sequence, e.ack);
    if e.ack <= r.sequence && r.sentLen != 0 && count < CAPACITY {
      AckStepsFrame(q, count, e.ackBits, ACK_WALK);
    }
  }

  lemma SeenAfter(r: Reliability, sequence: uint32, ack: uint32, ackBits: uint32)
    requires Shaped(r) && ack <= r.sequence
    ensures PacketReceived(r, sequence, ack, ackBits).seen == Receiver.ProcessSequence(r.seen, sequence)
  {
    var q, count := r.(seen := Receiver.ProcessSequence(r.seen, sequence)), AckCount(r.sequence, ack);
    if count < CAPACITY {
      AckStepsFrame(q, count, ackBits, ACK_WALK);
    }
  }

  /** A send changes the slots, both windows, the counter, and the two totals of what was sent. */
  lemma SendFrame(r: Reliability, size: nat)
    requires Shaped(r)
    ensures var t := Apply(r, Send(size));
            && t == r.(recent := t.recent, sentLen := t.sentLen, ackedLen := t.ackedLen, sequence := t.sequence,
                       totalSent := r.totalSent + 1, sentBytes := r.sentBytes + size)
            && t.recent[..CAPACITY - 1] == r.recent[1..]
            && Last(t.recent) == Packet(r.sequence, 0.0, size, false)
  {
  }

  function CountSends(events: seq<Event>): nat
  {
    if events == [] then 0 else CountSends(Front(events)) + if Last(events).Send? then 1 else 0
  }

  /** The packets let through: those whose ack was not beyond the sends so far, modulo 65535. */
  function CountAccepted(events: seq<Event>): nat
  {
    if events == [] then 0
    else
      CountAccepted(Front(events)) +
      if Last(events).Receive? && Last(events).ack <= CountSends(Front(events)) % MAX_SEQUENCE then 1 else 0
  }

  /** In every run the two totals count the sends and the packets let through. */
  lemma {:induction false} TotalsCount(events: seq<Event>)
    ensures Run(events).totalSent == CountSends(events) && Run(events).totalReceived == CountAccepted(events)
    ensures Run(events).sequence == CountSends(events) % MAX_SEQUENCE
  {
    if events != [] {
      var r, e := Run(Front(events)), Last(events);
      TotalsCount(Front(events));
      match e {
        case Send(size) =>
        case Receive(sequence, ack, ackBits) => ReceivedOne(r, e);
        case Clock(dt) =>
          if r.sentLen > 0 {
            ClockEffect(r, dt);
          }
      }
    }
  }

  lemma ReceivedOne(r: Reliability, e: Event)
    requires Shaped(r) && e.Receive?
    ensures var t := Apply(r, e);
            && t.totalReceived == r.totalReceived + (if e.ack <= r.sequence then 1 else 0)
            && t.totalSent == r.totalSent && t.sequence == r.sequence
  {
    ReceiveFrame(r, e);
    var q, count := r.(seen := Receiver.ProcessSequence(r.seen, e.sequence)), AckCount(r.sequence, e.ack);
    if e.ack <= r.sequence && r.sentLen != 0 && count < CAPACITY {
      AckStepsFrame(q, count, e.ackBits, ACK_WALK);
    }
  }

  /** While the sent window is empty and nothing is sent, updates and acknowledgements
      change nothing: ages, flags, windows, round-trip time and reports all stand still. */
  lemma {:induction false} IdleFreezes(events: seq<Event>, more: seq<Event>)
    requires Run(events).sentLen == 0 && forall i :: 0 <= i < |more| ==> !more[i].Send?
    ensures var r, t := Run(events), Run(events + more);
            t == r.(seen := t.seen, totalReceived := t.totalReceived)
  {
    if more == [] {
      assert events + more == events;
    } else {
      assert Front(events + more) == events + Front(more);
      IdleFreezes(events, Front(more));
    }
  }

  // ----- what expiry does

  lemma {:induction false} ExpireSentEffect(r: Reliability)
    requires Shaped(r)
    ensures var t := ExpireSent(r);
            && t == r.(sentLen := t.sentLen, sentBytes := t.sentBytes, totalLost := t.totalLost)
            && t.sentLen <= r.sentLen && !SentExpired(t)
            && forall j :: CAPACITY - r.sentLen <= j < CAPACITY - t.sentLen ==> r.recent[j].time > MAX_RTT + EPSILON
    decreases r.sentLen
  {
    if SentExpired(r) {
      ExpireSentEffect(DropSent(r));
    }
  }

  lemma {:induction false} ExpireAckedEffect(r: Reliability)
    requires Shaped(r)
    ensures var t := ExpireAcked(r);
            && t == r.(ackedLen := t.ackedLen)
            && t.ackedLen <= r.ackedLen
            && (t.ackedLen > 0 ==> r.recent[CAPACITY - t.ackedLen].time <= MAX_RTT * 2.0 - EPSILON)
            && forall j :: CAPACITY - r.ackedLen <= j < CAPACITY - t.ackedLen ==>
                 r.recent[j].time > MAX_RTT * 2.0 - EPSILON
    decreases r.ackedLen
  {
    if r.ackedLen > 0 && r.recent[CAPACITY - r.ackedLen].time > MAX_RTT * 2.0 - EPSILON {
      ExpireAckedEffect(r.(ackedLen := r.ackedLen - 1));
    }
  }

  lemma ClockEffect(r: Reliability, dt: real)
    requires Shaped(r) && r.sentLen > 0
    ensures var a := Aged(r.recent, dt);
            var q := ExpireSent(r.(recent := a));
            var t := Update(r, dt);
            && t == r.(recent := a, sentLen := q.sentLen, sentBytes := q.sentBytes, totalLost := q.totalLost,
                       ackedLen := t.ackedLen, ackedPackets := t.ackedPackets, ackedBytes := t.ackedBytes)
            && t.sentLen <= r.sentLen && t.ackedLen <= r.ackedLen
            && (t.sentLen > 0 ==> a[CAPACITY - t.sentLen].time <= MAX_RTT + EPSILON)
            && (t.ackedLen > 0 ==> a[CAPACITY - t.ackedLen].time <= MAX_RTT * 2.0 - EPSILON)
            && (forall j :: CAPACITY - r.sentLen <= j < CAPACITY - t.sentLen ==> a[j].time > MAX_RTT + EPSILON)
            && (forall j :: CAPACITY - r.ackedLen <= j < CAPACITY - t.ackedLen ==> a[j].time > MAX_RTT * 2.0 - EPSILON)
  {
    ExpireSentEffect(r.(recent := Aged(r.recent, dt)));
    ExpireAckedEffect(ExpireSent(r.(recent := Aged(r.recent, dt))));
  }

  // ----- the shape of the ring

  /** The sent window lies inside the acked window, ages never increase towards
      the newest packet, and the k-th newest slot holds the k-th most recent send. */
  ghost predicate RingShape(r: Reliability)
    requires Shaped(r)
  {
    && r.sentLen <= r.ackedLen <= r.totalSent
    && TimesFall(r.recent)
    && Numbered(r)
  }

  ghost predicate TimesFall(s: seq<Packet>)
  {
    && (forall i :: 0 <= i < |s| ==> s[i].time >= 0.0)
    && (forall i, j :: 0 <= i <= j < |s| ==> s[i].time >= s[j].time)
  }

  ghost predicate Numbered(r: Reliability)
    requires Shaped(r)
  {
    && r.sequence == r.totalSent % MAX_SEQUENCE
    && forall i :: 0 <= i < CAPACITY && CAPACITY - i <= r.totalSent ==>
         r.recent[i].sequence == (r.totalSent - (CAPACITY - i)) % MAX_SEQUENCE
  }

  lemma TimesFallSend(s: seq<Packet>, p: Packet)
    requires TimesFall(s) && s != [] && p.time == 0.0
    ensures TimesFall(s[1..] + [p])
  {
    var t := s[1..] + [p];
    assert forall i :: 0 <= i < |s| - 1 ==> t[i] == s[i + 1];
  }

  lemma NumberedSend(r: Reliability, size: nat)
    requires Shaped(r) && Numbered(r)
    ensures Numbered(PacketSent(r, size))
  {
    var t := PacketSent(r, size);
    forall i | 0 <= i < CAPACITY && CAPACITY - i <= t.totalSent
      ensures t.recent[i].sequence == (t.totalSent - (CAPACITY - i)) % MAX_SEQUENCE
    {
      if i < CAPACITY - 1 {
        assert t.recent[i] == r.recent[i + 1];
      }
    }
  }

  lemma RingShapeSend(r: Reliability, size: nat)
    requires Shaped(r) && RingShape(r)
    ensures RingShape(PacketSent(r, size))
  {
    TimesFallSend(r.recent, Packet(r.sequence, 0.0, size, false));
    NumberedSend(r, size);
  }

  lemma TimesFallAged(s: seq<Packet>, dt: Elapsed)
    requires TimesFall(s)
    ensures TimesFall(Aged(s, dt))
  {
  }

  lemma RingShapeClock(r: Reliability, dt: Elapsed)
    requires Shaped(r) && RingShape(r)
    ensures RingShape(Update(r, dt))
  {
    if r.sentLen > 0 {
      ClockEffect(r, dt);
      TimesFallAged(r.recent, dt);
      var a, t := Aged(r.recent, dt), Update(r, dt);
      assert t.sentLen > 0 ==> a[CAPACITY - t.sentLen].time <= MAX_RTT + EPSILON;
      assert forall i :: 0 <= i < CAPACITY ==> t.recent[i].sequence == r.recent[i].sequence;
    }
  }

  lemma SameButFlags(r: Reliability, t: Reliability)
    requires Shaped(r) && Shaped(t) && RingShape(r) && OnlyFlags(r.recent, t.recent)
    requires t.sentLen == r.sentLen && t.ackedLen == r.ackedLen
    requires t.totalSent == r.totalSent && t.sequence == r.sequence
    ensures RingShape(t)
  {
    assert forall i :: 0 <= i < CAPACITY ==>
                         t.recent[i].time == r.recent[i].time && t.recent[i].sequence == r.recent[i].sequence;
  }

  lemma RingShapeStep(r: Reliability, e: Event)
    requires Shaped(r) && RingShape(r)
    ensures RingShape(Apply(r, e))
  {
    match e
    case Send(size) => RingShapeSend(r, size);
    case Receive(_, _, _) => ReceiveFrame(r, e); SameButFlags(r, Apply(r, e));
    case Clock(dt) => RingShapeClock(r, dt);
  }

  lemma {:induction false} RingShapeAlways(events: seq<Event>)
    ensures RingShape(Run(events))
  {
    if events != [] {
      RingShapeAlways(Front(events));
      RingShapeStep(Run(Front(events)), Last(events));
    }
  }

  // ----- no overrun

  /** A packet has been sent since the last clock update. */
  predicate Pending(events: seq<Event>)
  {
    events != [] && (Last(events).Send? || (Last(events).Receive? && Pending(Front(events))))
  }

  const INTERVAL: real := 1.0 / 15.0

  /** At most one send between updates, and updates at least 1/15 second apart. */
  predicate Disciplined(events: seq<Event>)
  {
    events == [] || (
      && Disciplined(Front(events))
      && match Last(events)
         case Send(_) => !Pending(Front(events))
         case Receive(_, _, _) => true
         case Clock(dt) => dt >= INTERVAL)
  }

  /** In the acked window the k-th newest packet is at least k - 1 intervals old,
      k intervals once an update has followed it. */
  ghost predicate Spaced(r: Reliability, pending: bool)
    requires Shaped(r)
  {
    && SpacedBy(r.recent, r.ackedLen, if pending then 1 else 0)
    && r.sentLen <= (if pending then 16 else 15)
    && r.ackedLen <= (if pending then 30 else 29)
    && (pending ==> r.sentLen > 0)
  }

  ghost predicate SpacedBy(s: seq<Packet>, n: nat, lag: nat)
  {
    n <= |s| && forall i :: |s| - n <= i < |s| ==> 15.0 * s[i].time >= (|s| - i - lag) as real
  }

  lemma SpacedSend(r: Reliability, size: nat)
    requires Shaped(r) && Spaced(r, false)
    ensures Spaced(PacketSent(r, size), true)
  {
    var t := PacketSent(r, size);
    forall i | CAPACITY - t.ackedLen <= i < CAPACITY
      ensures 15.0 * t.recent[i].time >= (CAPACITY - i - 1) as real
    {
      if i < CAPACITY - 1 {
        assert t.recent[i] == r.recent[i + 1];
      }
    }
  }

  lemma SpacedAged(s: seq<Packet>, n: nat, lag: nat, dt: Elapsed)
    requires SpacedBy(s, n, lag) && lag <= 1 && dt >= INTERVAL
    ensures SpacedBy(Aged(s, dt), n, 0)
  {
  }

  lemma SpacedClock(r: Reliability, pending: bool, dt: Elapsed)
    requires Shaped(r) && RingShape(r) && Spaced(r, pending) && dt >= INTERVAL
    ensures Spaced(Update(r, dt), false)
  {
    if r.sentLen > 0 {
      var a, t := Aged(r.recent, dt), Update(r, dt);
      ClockEffect(r, dt);
      RingShapeClock(r, dt);
      SpacedAged(r.recent, r.ackedLen, if pending then 1 else 0, dt);
      hide Update, TimesFall, Numbered;
      SpacedPrefix(a, r.ackedLen, t.ackedLen);
      SpacedLengths(a, t.sentLen, t.ackedLen);
    }
  }

  lemma SpacedPrefix(s: seq<Packet>, n: nat, m: nat)
    requires SpacedBy(s, n, 0) && m <= n
    ensures SpacedBy(s, m, 0)
  {
  }

  /** Packets spaced by the interval pass the two age limits after 15 and 29 of them. */
  lemma SpacedLengths(s: seq<Packet>, sentLen: nat, ackedLen: nat)
    requires SpacedBy(s, ackedLen, 0) && sentLen <= ackedLen
    requires sentLen > 0 ==> s[|s| - sentLen].time <= MAX_RTT + EPSILON
    requires ackedLen > 0 ==> s[|s| - ackedLen].time <= MAX_RTT * 2.0 - EPSILON
    ensures sentLen <= 15 && ackedLen <= 29
  {
  }

  lemma SpacedReceive(r: Reliability, pending: bool, e: Event)
    requires Shaped(r) && Spaced(r, pending) && e.Receive?
    ensures Spaced(Apply(r, e), pending)
  {
    var t := Apply(r, e);
    ReceiveFrame(r, e);
    assert forall i :: 0 <= i < CAPACITY ==> t.recent[i].time == r.recent[i].time;
  }

  lemma SpacedStep(r: Reliability, pending: bool, e: Event)
    requires Shaped(r) && RingShape(r) && Spaced(r, pending)
    requires e.Send? ==> !pending
    requires e.Clock? ==> e.dt >= INTERVAL
    ensures Spaced(Apply(r, e), if e.Receive? then pending else e.Send?)
  {
    match e
    case Send(size) => SpacedSend(r, size);
    case Receive(_, _, _) => SpacedReceive(r, pending, e);
    case Clock(dt) => SpacedClock(r, pending, dt);
  }

  /** Disciplined runs never fill the ring: at most 16 of 34 usable slots are in
      the sent window and 30 in the acked window, so no packet is ever overwritten. */
  lemma {:induction false} NoOverrun(events: seq<Event>)
    requires Disciplined(events)
    ensures RingShape(Run(events)) && Spaced(Run(events), Pending(events))
    ensures Run(events).sentLen <= 16 && Run(events).ackedLen <= 30
  {
    if events != [] {
      NoOverrun(Front(events));
      RingShapeStep(Run(Front(events)), Last(events));
      SpacedStep(Run(Front(events)), Pending(Front(events)), Last(events));
    }
  }

  // ----- conservation

  /** What became of a packet. */
  datatype Fate = InFlight | LeftAcked | Lost(age: real) | Overwritten(size: nat)

  function FatesOfExpiry(r: Reliability, fates: seq<Fate>): (f: seq<Fate>)
    requires Shaped(r) && r.sentLen <= |fates|
    ensures |f| == |fates|
    decreases r.sentLen
  {
    if SentExpired(r) then
      var front := r.recent[CAPACITY - r.sentLen];
      FatesOfExpiry(DropSent(r), fates[|fates| - r.sentLen := if front.acked then LeftAcked else Lost(front.time)])
    else fates
  }

  function FatesOfSend(r: Reliability, f: seq<Fate>): (g: seq<Fate>)
    requires Shaped(r) && r.sentLen <= |f|
    ensures |g| == |f| + 1
  {
    (if r.sentLen == CAPACITY - 1 then f[|f| - r.sentLen := Overwritten(r.recent[1].size)] else f) + [InFlight]
  }

  function FatesStep(r: Reliability, f: seq<Fate>, e: Event): (g: seq<Fate>)
    requires Shaped(r) && r.sentLen <= |f|
    ensures |g| == if e.Send? then |f| + 1 else |f|
  {
    match e
    case Send(_) => FatesOfSend(r, f)
    case Receive(_, _, _) => f
    case Clock(dt) => if r.sentLen == 0 then f else FatesOfExpiry(r.(recent := Aged(r.recent, dt)), f)
  }

  lemma TotalSentStep(r: Reliability, e: Event)
    requires Shaped(r)
    ensures Apply(r, e).totalSent == if e.Send? then r.totalSent + 1 else r.totalSent
  {
    match e
    case Send(_) =>
    case Receive(_, _, _) => ReceiveFrame(r, e);
    case Clock(dt) =>
      if r.sentLen > 0 {
        ClockEffect(r, dt);
      }
  }

  /** The fate of every packet ever sent, by packet number. */
  function Fates(events: seq<Event>): (f: seq<Fate>)
    ensures |f| == Run(events).totalSent
  {
    if events == [] then []
    else
      RingShapeAlways(Front(events));
      TotalSentStep(Run(Front(events)), Last(events));
      FatesStep(Run(Front(events)), Fates(Front(events)), Last(events))
  }

  function CountLost(f: seq<Fate>): nat
  {
    if f == [] then 0 else CountLost(Front(f)) + if Last(f).Lost? then 1 else 0
  }

  function CountLeftAcked(f: seq<Fate>): nat
  {
    if f == [] then 0 else CountLeftAcked(Front(f)) + if Last(f).LeftAcked? then 1 else 0
  }

  function CountOverwritten(f: seq<Fate>): nat
  {
    if f == [] then 0 else CountOverwritten(Front(f)) + if Last(f).Overwritten? then 1 else 0
  }

  function OverwrittenBytes(f: seq<Fate>): nat
  {
    if f == [] then 0 else OverwrittenBytes(Front(f)) + if Last(f).Overwritten? then Last(f).size else 0
  }

  function Bytes(s: seq<Packet>): nat
  {
    if s == [] then 0 else s[0].size + Bytes(s[1..])
  }

  /** Giving an in-flight packet its fate adds it to exactly one account. */
  lemma {:induction false} Settle(f: seq<Fate>, i: nat, x: Fate)
    requires i < |f| && f[i].InFlight?
    ensures CountLost(f[i := x]) == CountLost(f) + if x.Lost? then 1 else 0
    ensures CountLeftAcked(f[i := x]) == CountLeftAcked(f) + if x.LeftAcked? then 1 else 0
    ensures CountOverwritten(f[i := x]) == CountOverwritten(f) + if x.Overwritten? then 1 else 0
    ensures OverwrittenBytes(f[i := x]) == OverwrittenBytes(f) + if x.Overwritten? then x.size else 0
  {
    if i == |f| - 1 {
      assert Front(f[i := x]) == Front(f);
    } else {
      Settle(Front(f), i, x);
      assert Front(f[i := x]) == Front(f)[i := x];
    }
  }

  /** With the newest n packets in flight and the others settled, the accounts add up. */
  lemma {:induction false} AccountsAddUp(f: seq<Fate>, n: nat)
    requires n <= |f| && forall i :: 0 <= i < |f| ==> (f[i].InFlight? <==> i >= |f| - n)
    ensures |f| == n + CountLost(f) + CountLeftAcked(f) + CountOverwritten(f)
  {
    if f != [] {
      AccountsAddUp(Front(f), if n == 0 then 0 else n - 1);
    }
  }

  ghost predicate Accounted(r: Reliability, f: seq<Fate>)
    requires Shaped(r)
  {
    && |f| == r.totalSent && r.sentLen <= |f|
    && (forall i :: 0 <= i < |f| ==> (f[i].InFlight? <==> i >= |f| - r.sentLen))
    && (forall i :: 0 <= i < |f| && f[i].Lost? ==> f[i].age > MAX_RTT + EPSILON)
    && r.totalLost == CountLost(f)
    && r.sentBytes == Bytes(SentWindow(r)) + OverwrittenBytes(f)
  }

  lemma {:induction false} ExpiryAccounted(r: Reliability, f: seq<Fate>)
    requires Shaped(r) && Accounted(r, f)
    ensures Accounted(ExpireSent(r), FatesOfExpiry(r, f))
    ensures CountOverwritten(FatesOfExpiry(r, f)) == CountOverwritten(f)
    decreases r.sentLen
  {
    if SentExpired(r) {
      var front, i := r.recent[CAPACITY - r.sentLen], |f| - r.sentLen;
      var x := if front.acked then LeftAcked else Lost(front.time);
      Settle(f, i, x);
      assert SentWindow(r)[1..] == SentWindow(DropSent(r));
      ExpiryAccounted(DropSent(r), f[i := x]);
    }
  }

  lemma {:induction false} BytesSnoc(s: seq<Packet>, p: Packet)
    ensures Bytes(s + [p]) == Bytes(s) + p.size
  {
    if s == [] {
      assert s + [p] == [p];
    } else {
      assert (s + [p])[1..] == s[1..] + [p];
      BytesSnoc(s[1..], p);
    }
  }

  lemma {:induction false} BytesOf(s: seq<Packet>, t: seq<Packet>)
    requires |s| == |t| && forall i :: 0 <= i < |s| ==> s[i].size == t[i].size
    ensures Bytes(s) == Bytes(t)
  {
    if s != [] {
      BytesOf(s[1..], t[1..]);
    }
  }

  lemma SendAccounted(r: Reliability, f: seq<Fate>, size: nat)
    requires Shaped(r) && Accounted(r, f)
    ensures Accounted(PacketSent(r, size), FatesOfSend(r, f))
    ensures CountOverwritten(FatesOfSend(r, f)) == CountOverwritten(f) + if r.sentLen == CAPACITY - 1 then 1 else 0
  {
    var g := Front(FatesOfSend(r, f));
    if r.sentLen == CAPACITY - 1 {
      Settle(f, |f| - r.sentLen, Overwritten(r.recent[1].size));
      assert g == f[|f| - r.sentLen := Overwritten(r.recent[1].size)];
    } else {
      assert g == f;
    }
    WindowOfSend(r, size);
  }

  lemma WindowOfSend(r: Reliability, size: nat)
    requires Shaped(r)
    ensures Bytes(SentWindow(PacketSent(r, size))) ==
            Bytes(SentWindow(r)) + size - if r.sentLen == CAPACITY - 1 then r.recent[1].size else 0
  {
    var p, t, w := Packet(r.sequence, 0.0, size, false), PacketSent(r, size), SentWindow(r);
    if r.sentLen == CAPACITY - 1 {
      assert SentWindow(t) == w[1..] + [p];
      BytesSnoc(w[1..], p);
    } else {
      assert SentWindow(t) == w + [p];
      BytesSnoc(w, p);
    }
  }

  lemma AgedAccounted(r: Reliability, f: seq<Fate>, dt: Elapsed)
    requires Shaped(r) && Accounted(r, f)
    ensures Accounted(r.(recent := Aged(r.recent, dt)), f)
  {
    BytesOf(SentWindow(r), SentWindow(r.(recent := Aged(r.recent, dt))));
  }

  /** The accounts look at the slots, the sent window and three counters only. */
  lemma SameAccounts(q: Reliability, t: Reliability, f: seq<Fate>)
    requires Shaped(q) && Shaped(t) && Accounted(q, f)
    requires t.recent == q.recent && t.sentLen == q.sentLen
    requires t.totalSent == q.totalSent && t.totalLost == q.totalLost && t.sentBytes == q.sentBytes
    ensures Accounted(t, f)
  {
  }

  lemma ClockAccounted(r: Reliability, f: seq<Fate>, dt: Elapsed)
    requires Shaped(r) && Accounted(r, f)
    ensures Accounted(Update(r, dt), FatesStep(r, f, Clock(dt)))
    ensures CountOverwritten(FatesStep(r, f, Clock(dt))) == CountOverwritten(f)
  {
    hide Accounted, Aged;
    if r.sentLen > 0 {
      var a := r.(recent := Aged(r.recent, dt));
      ClockEffect(r, dt);
      AgedAccounted(r, f, dt);
      ExpiryAccounted(a, f);
      ExpireSentEffect(a);
      SameAccounts(ExpireSent(a), Update(r, dt), FatesOfExpiry(a, f));
    }
  }

  lemma ReceiveAccounted(r: Reliability, f: seq<Fate>, e: Event)
    requires Shaped(r) && Accounted(r, f) && e.Receive?
    ensures Accounted(Apply(r, e), f)
  {
    ReceiveFrame(r, e);
    var t := Apply(r, e);
    assert forall i :: 0 <= i < CAPACITY ==> t.recent[i].size == r.recent[i].size;
    BytesOf(SentWindow(r), SentWindow(t));
  }

  lemma {:induction false} AccountedAlways(events: seq<Event>)
    ensures Accounted(Run(events), Fates(events))
    ensures Disciplined(events) ==> CountOverwritten(Fates(events)) == 0
  {
    if events != [] {
      var r, f := Run(Front(events)), Fates(Front(events));
      AccountedAlways(Front(events));
      match Last(events) {
        case Send(size) =>
          SendAccounted(r, f, size);
          if Disciplined(events) {
            NoOverrun(Front(events));
          }
        case Receive(_, _, _) => ReceiveAccounted(r, f, Last(events));
        case Clock(dt) => ClockAccounted(r, f, dt);
      }
    }
  }

  /** The counters agree with the fates of the packets in every run whatever:
      each packet is in flight, left acknowledged, counted lost once at an age
      above 1.0001, or overwritten, and `sentBytes` is the sent window's bytes
      plus the bytes that were overwritten. */
  lemma {:induction false} Conservation(events: seq<Event>)
    ensures var r, f := Run(events), Fates(events);
            && Accounted(r, f)
            && r.totalSent == r.sentLen + r.totalLost + CountLeftAcked(f) + CountOverwritten(f)
  {
    AccountedAlways(events);
    AccountsAddUp(Fates(events), Run(events).sentLen);
  }

  /** Under the driver's discipline nothing is overwritten, so both laws hold without a remainder. */
  lemma {:induction false} DisciplinedConservation(events: seq<Event>)
    requires Disciplined(events)
    ensures var r, f := Run(events), Fates(events);
            && r.sentBytes == Bytes(SentWindow(r))
            && r.totalSent == r.sentLen + r.totalLost + CountLeftAcked(f)
            && r.totalLost == CountLost(f)
            && forall i :: 0 <= i < |f| && f[i].Lost? ==> f[i].age > MAX_RTT + EPSILON
  {
    AccountedAlways(events);
    NoneNoBytes(Fates(events));
    AccountsAddUp(Fates(events), Run(events).sentLen);
  }

  lemma {:induction false} NoneNoBytes(f: seq<Fate>)
    requires CountOverwritten(f) == 0
    ensures OverwrittenBytes(f) == 0
  {
    if f != [] {
      NoneNoBytes(Front(f));
    }
  }

  /** A send keeps `sentBytes` equal to the sent window's bytes if and only if
      the window has room or the overwritten packet was empty. */
  lemma SendConservesBytesIff(r: Reliability, size: nat)
    requires Shaped(r) && r.sentBytes == Bytes(SentWindow(r))
    ensures var t := PacketSent(r, size);
            t.sentBytes == Bytes(SentWindow(t)) <==> r.sentLen < CAPACITY - 1 || r.recent[1].size == 0
  {
    WindowOfSend(r, size);
  }

  function Sends(sizes: seq<nat>): seq<Event>
  {
    seq(|sizes|, i requires 0 <= i < |sizes| => Send(sizes[i]))
  }

  function Sum(sizes: seq<nat>): nat
  {
    if sizes == [] then 0 else Sum(Front(sizes)) + Last(sizes)
  }

  lemma {:induction false} SumConcat(a: seq<nat>, b: seq<nat>)
    ensures Sum(a + b) == Sum(a) + Sum(b)
  {
    if b == [] {
      assert a + b == a;
    } else {
      assert Front(a + b) == a + Front(b);
      SumConcat(a, Front(b));
    }
  }

  /** The newest slots hold packets of these sizes. */
  ghost predicate Sized(s: seq<Packet>, sizes: seq<nat>)
  {
    forall i :: 0 <= i < |s| && |s| - i <= |sizes| ==> s[i].size == sizes[|sizes| - (|s| - i)]
  }

  lemma SizedNext(s: seq<Packet>, sizes: seq<nat>, p: Packet)
    requires s != [] && Sized(s, sizes)
    ensures Sized(s[1..] + [p], sizes + [p.size])
  {
    var t := s[1..] + [p];
    forall i | 0 <= i < |t| && |t| - i <= |sizes| + 1
      ensures t[i].size == (sizes + [p.size])[|sizes| + 1 - (|t| - i)]
    {
      if i < |s| - 1 {
        assert t[i] == s[i + 1];
      }
    }
  }

  /** The sent window after sends alone, of these sizes. */
  ghost predicate Unexpired(r: Reliability, sizes: seq<nat>)
    requires Shaped(r)
  {
    && r.sentLen == (if |sizes| < CAPACITY then |sizes| else CAPACITY - 1)
    && r.sentBytes == Sum(sizes) && Sized(r.recent, sizes)
  }

  lemma UnexpiredNext(r: Reliability, sizes: seq<nat>, size: nat)
    requires Shaped(r) && Unexpired(r, sizes)
    ensures Unexpired(PacketSent(r, size), sizes + [size])
  {
    hide Sized;
    SizedNext(r.recent, sizes, Packet(r.sequence, 0.0, size, false));
    assert Front(sizes + [size]) == sizes;
  }

  lemma RunOfSends(sizes: seq<nat>)
    requires sizes != []
    ensures Run(Sends(sizes)) == PacketSent(Run(Sends(Front(sizes))), Last(sizes))
  {
    hide PacketSent;
    assert Front(Sends(sizes)) == Sends(Front(sizes));
  }

  lemma {:induction false} SendsEffect(sizes: seq<nat>)
    ensures Unexpired(Run(Sends(sizes)), sizes)
  {
    if sizes != [] {
      hide Run, Unexpired, PacketSent, Sends;
      SendsEffect(Front(sizes));
      RunOfSends(sizes);
      UnexpiredNext(Run(Sends(Front(sizes))), Front(sizes), Last(sizes));
      assert sizes == Front(sizes) + [Last(sizes)];
    }
  }

  lemma {:induction false} BytesSized(s: seq<Packet>, sizes: seq<nat>)
    requires |s| == |sizes| && Sized(s, sizes)
    ensures Bytes(s) == Sum(sizes)
  {
    if s != [] {
      assert s == Front(s) + [Last(s)];
      BytesSnoc(Front(s), Last(s));
      BytesSized(Front(s), Front(sizes));
    }
  }

  /** A run of sends with no update between them counts the bytes of all, but only
      the last 34 are in the window: the byte count is broken if and only if one
      before those was not empty. */
  lemma UncreditedIff(sizes: seq<nat>)
    ensures var r, n := Run(Sends(sizes)), |sizes|;
            r.sentBytes != Bytes(SentWindow(r)) <==> exists i :: 0 <= i < n - (CAPACITY - 1) && sizes[i] > 0
  {
    SendsEffect(sizes);
    var r := Run(Sends(sizes));
    hide Run;
    var early, late := sizes[..|sizes| - r.sentLen], sizes[|sizes| - r.sentLen..];
    BytesSized(SentWindow(r), late);
    assert early + late == sizes;
    SumConcat(early, late);
    SumZeroIff(early);
    assert forall i :: 0 <= i < |early| ==> early[i] == sizes[i];
  }

  lemma {:induction false} SumZeroIff(sizes: seq<nat>)
    ensures Sum(sizes) == 0 <==> forall i :: 0 <= i < |sizes| ==> sizes[i] == 0
  {
    if sizes != [] {
      SumZeroIff(Front(sizes));
    }
  }
}
