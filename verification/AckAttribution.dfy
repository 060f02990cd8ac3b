/** Which sent packets an acknowledgement flags, and what the flags do to the round-trip estimate. */
module AckAttribution {
  import opened Basics
  import opened AckBits
  import opened MachineInts
  import opened SequenceNumbers
  import opened ReliabilityModel
  import opened ReliabilityRuns

  /** One of the first n set bits of the field lands on slot j. */
  ghost predicate Hit(count: nat, ackBits: uint32, n: nat, j: nat)
    requires count < CAPACITY && n <= ACK_WALK
  {
    exists p :: 0 <= p < n && Bit(ackBits, p) && Slot(count + p) == j
  }

  /** The walk raises exactly the flags its set bits land on. */
  lemma {:induction false} WalkFlags(r: Reliability, count: nat, ackBits: uint32, n: nat)
    requires Shaped(r) && count < CAPACITY && n <= ACK_WALK
    ensures forall j :: 0 <= j < CAPACITY ==>
              (AckSteps(r, count, ackBits, n).recent[j].acked <==> r.recent[j].acked || Hit(count, ackBits, n, j))
  {
    if n > 0 {
      WalkFlags(r, count, ackBits, n - 1);
      forall j | 0 <= j < CAPACITY
        ensures Hit(count, ackBits, n, j) <==>
                Hit(count, ackBits, n - 1, j) || (Bit(ackBits, n - 1) && Slot(count + n - 1) == j)
      {
      }
    }
  }

  /** Each newly flagged packet is counted once. */
  lemma {:induction false} WalkCounts(r: Reliability, count: nat, ackBits: uint32, n: nat)
    requires Shaped(r) && count < CAPACITY && n <= ACK_WALK
    ensures var t := AckSteps(r, count, ackBits, n);
            t.totalAcked == r.totalAcked + |NewlyFlagged(r, t)|
  {
    if n > 0 {
      var q, t, s := AckSteps(r, count, ackBits, n - 1), AckSteps(r, count, ackBits, n), Slot(count + n - 1);
      WalkCounts(r, count, ackBits, n - 1);
      AckStepsFrame(r, count, ackBits, n - 1);
      OneMoreCounted(r, q, s, Bit(ackBits, n - 1));
    }
  }

  lemma OneMoreCounted(r: Reliability, q: Reliability, s: nat, bit: bool)
    requires Shaped(r) && Shaped(q) && s < CAPACITY
    requires forall j :: 0 <= j < CAPACITY && r.recent[j].acked ==> q.recent[j].acked
    ensures var t := AckOne(q, s, bit);
            t.totalAcked - q.totalAcked == |NewlyFlagged(r, t)| - |NewlyFlagged(r, q)|
  {
    var t := AckOne(q, s, bit);
    if bit && !q.recent[s].acked {
      assert NewlyFlagged(r, t) == NewlyFlagged(r, q) + {s};
    } else {
      assert NewlyFlagged(r, t) == NewlyFlagged(r, q);
    }
  }

  /** A flag new after a packet is received comes from one of its set bits. */
  lemma ReceivedFlags(r: Reliability, sequence: uint32, ack: uint32, ackBits: uint32)
    requires Shaped(r) && ack <= r.sequence
    ensures var t := PacketReceived(r, sequence, ack, ackBits);
            && t.totalSent == r.totalSent
            && forall j :: 0 <= j < CAPACITY && t.recent[j].acked && !r.recent[j].acked ==>
                 r.sentLen > 0 && AckCount(r.sequence, ack) < CAPACITY &&
                     Hit(AckCount(r.sequence, ack), ackBits, ACK_WALK, j)
  {
    var q, count := r.(seen := Receiver.ProcessSequence(r.seen, sequence)), AckCount(r.sequence, ack);
    if count < CAPACITY {
      WalkFlags(q, count, ackBits, ACK_WALK);
      AckStepsFrame(q, count, ackBits, ACK_WALK);
    }
  }

  /** Every packet flagged as acked, by its number since the start, is in the set. */
  ghost predicate FlagsSound(r: Reliability, received: set<nat>)
    requires Shaped(r)
  {
    forall j :: 0 <= j < CAPACITY && r.recent[j].acked ==>
                  CAPACITY - j <= r.totalSent && r.totalSent - (CAPACITY - j) in received
  }

  ghost function NewlyFlagged(r: Reliability, t: Reliability): set<nat>
    requires Shaped(r) && Shaped(t)
  {
    set j: nat | j < CAPACITY && !r.recent[j].acked && t.recent[j].acked
  }

  // ----- attribution

  /** Slot j holds a packet that one of the looked-at bits names, in the receiver's numbers modulo 65536. */
  ghost predicate Named(r: Reliability, ack: uint32, ackBits: uint32, j: nat)
    requires Shaped(r) && j < CAPACITY
  {
    && CAPACITY - j <= r.totalSent
    && exists p :: 0 <= p < ACK_WALK && Bit(ackBits, p) && r.recent[j].sequence == (ack - p) % SEQUENCE_SPACE
  }

  /** t has the flags of r and those of the packets the field names, and no others. */
  ghost predicate FlaggedExactly(r: Reliability, t: Reliability, ack: uint32, ackBits: uint32)
    requires Shaped(r) && Shaped(t)
  {
    forall j :: 0 <= j < CAPACITY ==> (t.recent[j].acked <==> r.recent[j].acked || Named(r, ack, ackBits, j))
  }

  /** Of the 32 bits only 31 are looked at. */
  predicate LookedAt(ackBits: uint32, p: int)
  {
    0 <= p <= 30 && Bit(ackBits, p)
  }

  /** Bit p flags nothing wrongly. The slot it lands on is flagged already; or it
      is in the ring, and bit p names its packet, or bit p + 1 does: that far back
      the counter skipped a number. */
  predicate LandsRight(r: Reliability, ack: uint32, ackBits: uint32, p: nat)
    requires Shaped(r) && ack <= r.sequence < ack + CAPACITY && p < ACK_WALK
  {
    var d := r.sequence - ack + p;
    || r.recent[Slot(d)].acked
    || (d <= CAPACITY && (d <= r.sequence || (d <= r.totalSent && LookedAt(ackBits, p + 1))))
  }

  /** Bit p misses nothing. A packet it names from before the counter was last 0 is
      one slot nearer than the one it lands on, and must be flagged or hit by bit p - 1. */
  predicate MissesNone(r: Reliability, ack: uint32, ackBits: uint32, p: nat)
    requires Shaped(r) && ack <= r.sequence < ack + CAPACITY && p < ACK_WALK
  {
    var d := r.sequence - ack + p - 1;
    p > ack + 1 && d <= CAPACITY && d <= r.totalSent ==> r.recent[Slot(d)].acked || Bit(ackBits, p - 1)
  }

  /** A slot from before the counter's last wrap holds a number above the counter. */
  lemma NumberOfSlot(r: Reliability, j: nat)
    requires Shaped(r) && RingShape(r)
    requires j < CAPACITY && CAPACITY - j <= r.totalSent
    ensures r.recent[j].sequence == r.sequence - (CAPACITY - j) + if CAPACITY - j <= r.sequence then 0 else MAX_SEQUENCE
  {
    Back(r.totalSent, CAPACITY - j);
  }

  /** Stepping back d sends from the wrapped counter. */
  lemma Back(total: nat, d: nat)
    requires d <= total && d <= MAX_SEQUENCE
    ensures (total - d) % MAX_SEQUENCE ==
            if d <= total % MAX_SEQUENCE then total % MAX_SEQUENCE - d else total % MAX_SEQUENCE - d + MAX_SEQUENCE
  {
    var q, s := total / MAX_SEQUENCE, total % MAX_SEQUENCE;
    assert total == MAX_SEQUENCE * q + s;
    if d <= s {
      assert total - d == MAX_SEQUENCE * q + (s - d);
    } else {
      assert total - d == MAX_SEQUENCE * (q - 1) + (s - d + MAX_SEQUENCE);
    }
  }

  /** Bit p names the packet d sends back if and only if d is as far back as the bit
      reaches, or one less where the counter was 0 in between. */
  lemma NamesIff(r: Reliability, ack: uint32, p: nat, d: nat)
    requires Shaped(r) && RingShape(r) && ack < r.sequence < ack + CAPACITY && p < ACK_WALK
    requires 0 < d <= CAPACITY && d <= r.totalSent
    ensures r.recent[CAPACITY - d].sequence == (ack - p) % SEQUENCE_SPACE <==>
            r.sequence - ack + p == if d <= r.sequence then d else d + 1
  {
    NumberOfSlot(r, CAPACITY - d);
    assert (ack - p) % SEQUENCE_SPACE == if p <= ack then ack - p else ack - p + SEQUENCE_SPACE;
  }

  /** In every state, just after a wrap included, an acknowledgement flags the
      packets the field names and no others if and only if each set bit that is
      looked at lands right and misses none. */
  lemma AttributionExactIff(r: Reliability, ack: uint32, ackBits: uint32)
    requires Shaped(r) && RingShape(r)
    requires r.sentLen > 0 && ack < r.sequence < ack + CAPACITY
    ensures FlaggedExactly(r, ProcessAck(r, ack, ackBits), ack, ackBits) <==>
            forall p :: LookedAt(ackBits, p) ==> LandsRight(r, ack, ackBits, p) && MissesNone(r, ack, ackBits, p)
  {
    WalkFlags(r, r.sequence - ack, ackBits, ACK_WALK);
    if FlaggedExactly(r, ProcessAck(r, ack, ackBits), ack, ackBits) {
      forall p | LookedAt(ackBits, p)
        ensures LandsRight(r, ack, ackBits, p) && MissesNone(r, ack, ackBits, p)
      {
        ExactLands(r, ack, ackBits, p);
        ExactMissesNone(r, ack, ackBits, p);
      }
    }
    if forall p :: LookedAt(ackBits, p) ==> LandsRight(r, ack, ackBits, p) && MissesNone(r, ack, ackBits, p) {
      forall j | 0 <= j < CAPACITY
        ensures r.recent[j].acked || Hit(r.sequence - ack, ackBits, ACK_WALK, j) <==>
                r.recent[j].acked || Named(r, ack, ackBits, j)
      {
        if Hit(r.sequence - ack, ackBits, ACK_WALK, j) {
          HitIsNamed(r, ack, ackBits, j);
        }
        if Named(r, ack, ackBits, j) {
          NamedIsHit(r, ack, ackBits, j);
        }
      }
    }
  }

  lemma ExactLands(r: Reliability, ack: uint32, ackBits: uint32, p: nat)
    requires Shaped(r) && RingShape(r) && ack < r.sequence < ack + CAPACITY && LookedAt(ackBits, p)
    requires var j := Slot(r.sequence - ack + p); r.recent[j].acked || Named(r, ack, ackBits, j)
    ensures LandsRight(r, ack, ackBits, p)
  {
    var j := Slot(r.sequence - ack + p);
    if !r.recent[j].acked {
      var q :| 0 <= q < ACK_WALK && Bit(ackBits, q) && r.recent[j].sequence == (ack - q) % SEQUENCE_SPACE;
      NamesIff(r, ack, q, CAPACITY - j);
      assert LookedAt(ackBits, q);
    }
  }

  lemma ExactMissesNone(r: Reliability, ack: uint32, ackBits: uint32, p: nat)
    requires Shaped(r) && RingShape(r) && ack < r.sequence < ack + CAPACITY && LookedAt(ackBits, p)
    requires forall j :: 0 <= j < CAPACITY && Named(r, ack, ackBits, j) ==>
                           r.recent[j].acked || Hit(r.sequence - ack, ackBits, ACK_WALK, j)
    ensures MissesNone(r, ack, ackBits, p)
  {
    var d := r.sequence - ack + p - 1;
    if p > ack + 1 && d <= CAPACITY && d <= r.totalSent {
      NamesIff(r, ack, p, d);
      assert Named(r, ack, ackBits, CAPACITY - d);
    }
  }

  lemma HitIsNamed(r: Reliability, ack: uint32, ackBits: uint32, j: nat)
    requires Shaped(r) && RingShape(r) && ack < r.sequence < ack + CAPACITY
    requires j < CAPACITY && Hit(r.sequence - ack, ackBits, ACK_WALK, j)
    requires forall p :: LookedAt(ackBits, p) ==> LandsRight(r, ack, ackBits, p)
    ensures r.recent[j].acked || Named(r, ack, ackBits, j)
  {
    var p :| 0 <= p < ACK_WALK && Bit(ackBits, p) && Slot(r.sequence - ack + p) == j;
    assert LookedAt(ackBits, p);
    if !r.recent[j].acked {
      var d := r.sequence - ack + p;
      NamesIff(r, ack, if d <= r.sequence then p else p + 1, d);
    }
  }

  lemma NamedIsHit(r: Reliability, ack: uint32, ackBits: uint32, j: nat)
    requires Shaped(r) && RingShape(r) && ack < r.sequence < ack + CAPACITY
    requires j < CAPACITY && Named(r, ack, ackBits, j)
    requires forall p :: LookedAt(ackBits, p) ==> MissesNone(r, ack, ackBits, p)
    ensures r.recent[j].acked || Hit(r.sequence - ack, ackBits, ACK_WALK, j)
  {
    var p :| 0 <= p < ACK_WALK && Bit(ackBits, p) && r.recent[j].sequence == (ack - p) % SEQUENCE_SPACE;
    assert LookedAt(ackBits, p);
    NamesIff(r, ack, p, CAPACITY - j);
    if !r.recent[j].acked {
      var q := if CAPACITY - j <= r.sequence then p else p - 1;
      assert Bit(ackBits, q) && Slot(r.sequence - ack + q) == j;
    }
  }

  /** With an ack one to five behind, bits up to the ack itself are always right, so
      attribution is exact if and only if the bits for packets from before the
      counter was last 0 are; and each packet flagged is counted once. */
  lemma PromptAckExact(r: Reliability, ack: uint32, ackBits: uint32)
    requires Shaped(r) && RingShape(r)
    requires r.sentLen > 0 && ack < r.sequence <= ack + 5
    ensures FlaggedExactly(r, ProcessAck(r, ack, ackBits), ack, ackBits) <==>
            forall p :: p > ack && LookedAt(ackBits, p) ==>
                          LandsRight(r, ack, ackBits, p) && MissesNone(r, ack, ackBits, p)
    ensures ProcessAck(r, ack, ackBits).totalAcked == r.totalAcked + |NewlyFlagged(r, ProcessAck(r, ack, ackBits))|
  {
    AttributionExactIff(r, ack, ackBits);
    WalkCounts(r, r.sequence - ack, ackBits, ACK_WALK);
    assert forall p :: p <= ack && LookedAt(ackBits, p) ==>
                         LandsRight(r, ack, ackBits, p) && MissesNone(r, ack, ackBits, p);
  }

  /** Near a wrap the bit for a packet sent before it names, in the receiver's
      space of 65536, one number more than the slot it lands on: slot and name
      agree if and only if the counter has not wrapped since that packet. */
  lemma SlotNamedIffNoWrap(r: Reliability, ack: uint32, p: nat)
    requires Shaped(r) && RingShape(r) && ack < r.sequence
    requires r.sequence - ack + p <= CAPACITY && r.sequence - ack + p <= r.totalSent
    ensures var d := r.sequence - ack + p;
            && (d <= r.sequence ==> r.recent[Slot(d)].sequence == (ack - p) % SEQUENCE_SPACE)
            && (d > r.sequence ==> r.recent[Slot(d)].sequence == (ack - p) % SEQUENCE_SPACE - 1)
  {
    Back(r.totalSent, r.sequence - ack + p);
  }

  /** An ack from before the wrap is looked up one slot too far: bit p flags the
      packet before the one it names. */
  lemma AckBeforeWrapMisattributed(r: Reliability, ack: uint32, ackBits: uint32, p: nat)
    requires Shaped(r) && RingShape(r) && r.sentLen > 0
    requires r.sequence < ack < MAX_SEQUENCE && p < ACK_WALK && Bit(ackBits, p)
    requires AckCount(r.sequence, ack) + p <= CAPACITY && AckCount(r.sequence, ack) < CAPACITY
    requires CAPACITY <= r.totalSent
    ensures var j := Slot(AckCount(r.sequence, ack) + p);
            ProcessAck(r, ack, ackBits).recent[j].acked && r.recent[j].sequence == ack - p - 1
  {
    var count := AckCount(r.sequence, ack);
    WalkFlags(r, count, ackBits, ACK_WALK);
    assert Hit(count, ackBits, ACK_WALK, Slot(count + p));
    Back(r.totalSent, count + p);
  }

  /** streamReceive's guard keeps that lookup from being reached: an accepted
      packet flags something only if its ack is below the sender's counter. */
  lemma GuardShieldsLookup(r: Reliability, sequence: uint32, ack: uint32, ackBits: uint32)
    requires Shaped(r)
    ensures Apply(r, Receive(sequence, ack, ackBits)).recent != r.recent ==> ack < r.sequence < ack + CAPACITY
  {
  }

  // ----- round-trip estimate

  /** The ages of the packets the first n bits newly flag, in the order they are flagged. */
  function AckSamples(r: Reliability, count: nat, ackBits: uint32, n: nat): seq<real>
    requires Shaped(r) && count < CAPACITY && n <= ACK_WALK
  {
    if n == 0 then []
    else
      var q, j := AckSteps(r, count, ackBits, n - 1), Slot(count + n - 1);
      AckSamples(r, count, ackBits, n - 1) +
      if Bit(ackBits, n - 1) && !q.recent[j].acked then [q.recent[j].time] else []
  }

  function StepSamples(r: Reliability, e: Event): seq<real>
    requires Shaped(r)
  {
    if e.Receive? && e.ack <= r.sequence && r.sentLen != 0 && AckCount(r.sequence, e.ack) < CAPACITY
    then AckSamples(r, AckCount(r.sequence, e.ack), e.ackBits, ACK_WALK)
    else []
  }

  /** Every age ever sampled in a run. */
  function Samples(events: seq<Event>): seq<real>
  {
    if events == [] then [] else Samples(Front(events)) + StepSamples(Run(Front(events)), Last(events))
  }

  /** A tenth of each new sample is blended in. */
  function Smooth(rtt: real, samples: seq<real>): real
  {
    if samples == [] then rtt
    else
      var before := Smooth(rtt, Front(samples));
      before + (Last(samples) - before) * 0.1
  }

  lemma {:induction false} SmoothConcat(rtt: real, a: seq<real>, b: seq<real>)
    ensures Smooth(rtt, a + b) == Smooth(Smooth(rtt, a), b)
  {
    if b == [] {
      assert a + b == a;
    } else {
      assert Front(a + b) == a + Front(b);
      SmoothConcat(rtt, a, Front(b));
    }
  }

  lemma {:induction false} SmoothBetween(rtt: real, samples: seq<real>, lo: real, hi: real)
    requires lo <= rtt <= hi && forall i :: 0 <= i < |samples| ==> lo <= samples[i] <= hi
    ensures lo <= Smooth(rtt, samples) <= hi
  {
    if samples != [] {
      SmoothBetween(rtt, Front(samples), lo, hi);
    }
  }

  lemma {:induction false} WalkSamples(r: Reliability, count: nat, ackBits: uint32, n: nat)
    requires Shaped(r) && TimesFall(r.recent) && count < CAPACITY && n <= ACK_WALK
    ensures var t, x := AckSteps(r, count, ackBits, n), AckSamples(r, count, ackBits, n);
            && t.rtt == Smooth(r.rtt, x) && t.totalAcked == r.totalAcked + |x|
            && forall i :: 0 <= i < |x| ==> x[i] >= 0.0
  {
    if n > 0 {
      var q, j := AckSteps(r, count, ackBits, n - 1), Slot(count + n - 1);
      WalkSamples(r, count, ackBits, n - 1);
      AckStepsFrame(r, count, ackBits, n - 1);
      assert r.recent[j].time == q.recent[j].time;
      var x := AckSamples(r, count, ackBits, n - 1);
      if Bit(ackBits, n - 1) && !q.recent[j].acked {
        assert Front(x + [q.recent[j].time]) == x;
      } else {
        assert AckSamples(r, count, ackBits, n) == x + [] == x;
      }
    }
  }

  /** In every run the estimate is the smoothed sequence of sampled ages, one
      sample for each packet counted acked; so it lies between zero and the largest sample. */
  lemma {:induction false} RttIsSmoothedSamples(events: seq<Event>)
    ensures var r, x := Run(events), Samples(events);
            r.rtt == Smooth(0.0, x) && |x| == r.totalAcked && forall i :: 0 <= i < |x| ==> x[i] >= 0.0
  {
    if events != [] {
      var r, e, x := Run(Front(events)), Last(events), Samples(Front(events));
      RttIsSmoothedSamples(Front(events));
      RingShapeAlways(Front(events));
      SmoothConcat(0.0, x, StepSamples(r, e));
      StepSamplesEffect(r, e);
    }
  }

  lemma StepSamplesEffect(r: Reliability, e: Event)
    requires Shaped(r) && RingShape(r)
    ensures var t, x := Apply(r, e), StepSamples(r, e);
            t.rtt == Smooth(r.rtt, x) && t.totalAcked == r.totalAcked + |x| && forall i :: 0 <= i < |x| ==> x[i] >= 0.0
  {
    match e
    case Send(_) =>
    case Clock(dt) =>
      if r.sentLen > 0 {
        ClockEffect(r, dt);
      }
    case Receive(sequence, ack, ackBits) =>
      if ack <= r.sequence && r.sentLen != 0 && AckCount(r.sequence, ack) < CAPACITY {
        var q := r.(seen := Receiver.ProcessSequence(r.seen, sequence));
        SeenIrrelevant(r, q, AckCount(r.sequence, ack), ackBits, ACK_WALK);
        WalkSamples(q, AckCount(r.sequence, ack), ackBits, ACK_WALK);
      }
  }

  lemma {:induction false} SeenIrrelevant(r: Reliability, q: Reliability, count: nat, ackBits: uint32, n: nat)
    requires Shaped(r) && Shaped(q) && q == r.(seen := q.seen) && count < CAPACITY && n <= ACK_WALK
    ensures AckSteps(q, count, ackBits, n) == AckSteps(r, count, ackBits, n).(seen := q.seen)
    ensures AckSamples(q, count, ackBits, n) == AckSamples(r, count, ackBits, n)
  {
    if n > 0 {
      SeenIrrelevant(r, q, count, ackBits, n - 1);
    }
  }

  lemma {:induction false} RttBounded(events: seq<Event>, oldest: real)
    requires oldest >= 0.0 && forall i :: 0 <= i < |Samples(events)| ==> Samples(events)[i] <= oldest
    ensures 0.0 <= Run(events).rtt <= oldest
  {
    RttIsSmoothedSamples(events);
    SmoothBetween(0.0, Samples(events), 0.0, oldest);
  }

  // ----- what an update reports

  /** The slots from a given one on whose packets are acked and at least one second old. */
  ghost function AckedFor1s(s: seq<Packet>, from: nat): set<nat>
  {
    set j: nat | from <= j < |s| && s[j].acked && s[j].time >= 1.0
  }

  /** The sizes of the packets in the chosen slots, added up. */
  ghost function SizesAt(s: seq<Packet>, chosen: set<nat>): nat
  {
    if s == [] then 0 else SizesAt(Front(s), chosen) + if |s| - 1 in chosen then Last(s).size else 0
  }

  /** After an update that is not skipped the windows hold exactly the packets
      young enough for them, and the acked totals are the number and the bytes of
      the acked packets of the acked window that are at least one second old. */
  lemma UpdateExact(r: Reliability, dt: Elapsed)
    requires Shaped(r) && RingShape(r) && r.sentLen > 0
    ensures var t := Update(r, dt);
            && (forall j :: CAPACITY - r.sentLen <= j < CAPACITY ==>
                  (j >= CAPACITY - t.sentLen <==> t.recent[j].time <= 1.0001))
            && (forall j :: CAPACITY - r.ackedLen <= j < CAPACITY ==>
                  (j >= CAPACITY - t.ackedLen <==> t.recent[j].time <= 1.9999))
            && t.ackedPackets == |AckedFor1s(t.recent, CAPACITY - t.ackedLen)|
            && t.ackedBytes == SizesAt(t.recent, AckedFor1s(t.recent, CAPACITY - t.ackedLen))
  {
    ClockEffect(r, dt);
    TimesFallAged(r.recent, dt);
    TotalsAreTallies(r, dt);
    var t := Update(r, dt);
    TalliesAre(t.recent, CAPACITY - t.ackedLen);
  }

  lemma TotalsAreTallies(r: Reliability, dt: Elapsed)
    requires Shaped(r) && r.sentLen > 0
    ensures var t := Update(r, dt);
            t.ackedPackets == CountSettled(AckedWindow(t)) && t.ackedBytes == SettledBytes(AckedWindow(t))
  {
  }

  lemma {:induction false} TalliesAre(s: seq<Packet>, from: nat)
    requires from <= |s|
    ensures CountSettled(s[from..]) == |AckedFor1s(s, from)|
    ensures SettledBytes(s[from..]) == SizesAt(s, AckedFor1s(s, from))
  {
    if from == |s| {
      NoSizes(s, AckedFor1s(s, from));
    } else {
      var before := Front(s);
      TalliesAre(before, from);
      assert Front(s[from..]) == before[from..];
      AckedOneMore(s, from);
      hide AckedFor1s, Settled;
      SizesBelow(before, AckedFor1s(s, from), AckedFor1s(before, from));
    }
  }

  lemma AckedOneMore(s: seq<Packet>, from: nat)
    requires from < |s|
    ensures var last, a, b := |s| - 1, AckedFor1s(s, from), AckedFor1s(Front(s), from);
            && a == (if Settled(s[last]) then b + {last} else b) && last !in b
            && |a| == |b| + if Settled(s[last]) then 1 else 0
  {
    var last, a, b := |s| - 1, AckedFor1s(s, from), AckedFor1s(Front(s), from);
    assert a == if Settled(s[last]) then b + {last} else b;
  }

  lemma {:induction false} NoSizes(s: seq<Packet>, chosen: set<nat>)
    requires forall j :: j in chosen ==> j >= |s|
    ensures SizesAt(s, chosen) == 0
  {
    if s != [] {
      NoSizes(Front(s), chosen);
    }
  }

  lemma {:induction false} SizesBelow(s: seq<Packet>, a: set<nat>, b: set<nat>)
    requires forall j: nat :: j < |s| ==> (j in a <==> j in b)
    ensures SizesAt(s, a) == SizesAt(s, b)
  {
    if s != [] {
      SizesBelow(Front(s), a, b);
    }
  }
}
