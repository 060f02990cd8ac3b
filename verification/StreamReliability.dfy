/** The reliability record as the program keeps it: a ring of 35 slots with one
    back index and two front indices, updated in place. Each method is tied to
    the ring-free model. */
module StreamReliability {
  import opened AckBits
  import opened MachineInts
  import opened SequenceNumbers
  import R = Receiver
  import M = ReliabilityModel

  /** The ring read from `back` onwards, oldest slot first. */
  function Rotated<T>(s: seq<T>, back: nat): (t: seq<T>)
    requires back <= |s|
    ensures |t| == |s|
    ensures forall j :: 0 <= j < |s| ==> t[j] == if back + j < |s| then s[back + j] else s[back + j - |s|]
  {
    s[back..] + s[..back]
  }

  /** Slots from `front` up to, not including, `back`. */
  function Distance(front: nat, back: nat): nat
    requires front < CAPACITY && back < CAPACITY
  {
    if back >= front then back - front else back + CAPACITY - front
  }

  /** A front caught up by `back` moves on, so a full window stays at 34 slots. */
  lemma PushedFront(front: nat, back: nat)
    requires front < CAPACITY && back < CAPACITY
    ensures var next := Increase(back, CAPACITY);
            var pushed := if next == front then Increase(front, CAPACITY) else front;
            && pushed < CAPACITY && pushed != next
            && Distance(pushed, next) ==
               if Distance(front, back) < CAPACITY - 1 then Distance(front, back) + 1 else CAPACITY - 1
  {
  }

  lemma RotatedStore<T>(s: seq<T>, back: nat, j: nat, x: T)
    requires back < |s| && j < |s|
    ensures var i := if back + j < |s| then back + j else back + j - |s|;
            Rotated(s[i := x], back) == Rotated(s, back)[j := x]
  {
  }

  lemma RotatedAppend<T>(s: seq<T>, back: nat, x: T)
    requires back < |s|
    ensures Rotated(s[back := x], if back + 1 == |s| then 0 else back + 1) == Rotated(s, back)[1..] + [x]
  {
  }

  lemma AckStepsNext(r: M.Reliability, count: nat, ackBits: uint32, n: nat)
    requires M.Shaped(r) && count < CAPACITY && n < M.ACK_WALK
    ensures M.AckSteps(r, count, ackBits, n + 1) ==
            M.AckOne(M.AckSteps(r, count, ackBits, n), M.Slot(count + n), Bit(ackBits, n))
  {
  }

  class StreamReliability {
    const packets: array<M.Packet>
    var frontSent: nat
    var frontAcked: nat
    var back: nat
    var sequence: nat
    var ack: uint32
    var ackBits: uint32
    var totalSentPackets: nat
    var totalReceivedPackets: nat
    var totalAckedPackets: nat
    var totalLostPackets: nat
    var sentBytes: int
    var ackedPackets: nat
    var ackedBytes: nat
    var rtt: real

    ghost predicate Valid()
      reads this, packets
    {
      && packets.Length == CAPACITY
      && frontSent < CAPACITY && frontAcked < CAPACITY && back < CAPACITY
      && sequence < MAX_SEQUENCE
    }

    /** The ring's slots, oldest first. */
    ghost function Recent(): (s: seq<M.Packet>)
      requires packets.Length == CAPACITY && back < CAPACITY
      reads this`back, packets
      ensures |s| == CAPACITY
    {
      Rotated(packets[..], back)
    }

    ghost function Model(): (r: M.Reliability)
      requires Valid()
      reads this, packets
      ensures M.Shaped(r)
    {
      M.Reliability(Recent(), Distance(frontSent, back), Distance(frontAcked, back),
                    sequence, R.Seen(ack, ackBits),
                    totalSentPackets, totalReceivedPackets, totalAckedPackets, totalLostPackets,
                    sentBytes, ackedPackets, ackedBytes, rtt)
    }

    /** A zeroed stream record, cleared. */
    constructor ()
      ensures Valid() && fresh(packets) && Model() == M.Cleared()
    {
      packets := new M.Packet[CAPACITY](_ => M.UNUSED);
      frontSent, frontAcked, back, sequence, ack, ackBits := 0, 0, 0, 0, 0, 0;
      totalSentPackets, totalReceivedPackets, totalAckedPackets, totalLostPackets := 0, 0, 0, 0;
      sentBytes, ackedPackets, ackedBytes, rtt := 0, 0, 0, 0.0;
      new;
      assert Model().recent == M.Cleared().recent;
    }

    /** Writes the slot at `back` and moves `back` on. */
    method Push(p: M.Packet)
      requires Valid()
      modifies this`back, packets
      ensures Valid() && back == Increase(old(back), CAPACITY) && Recent() == old(Recent())[1..] + [p]
    {
      ghost var ring := packets[..];
      packets[back] := p;
      RotatedAppend(ring, back, p);
      assert packets[..] == ring[back := p];
      back := Increase(back, CAPACITY);
    }

    method PacketSent(size: nat)
      requires Valid()
      modifies this, packets
      ensures Valid() && Model() == M.PacketSent(old(Model()), size)
    {
      hide Rotated, Distance;
      PushedFront(frontSent, back);
      PushedFront(frontAcked, back);
      Push(M.Packet(sequence, 0.0, size, false));
      sequence := Increase(sequence, MAX_SEQUENCE);
      totalSentPackets := totalSentPackets + 1;
      sentBytes := sentBytes + size;
      if back == frontAcked {
        frontAcked := Increase(frontAcked, CAPACITY);
      }
      if back == frontSent {
        frontSent := Increase(frontSent, CAPACITY);
      }
      assert frontSent != back;
      assert frontAcked != back;
    }

    method PacketReceived(sequence: uint32, ack: uint32, ackBits: uint32)
      requires Valid() && M.AckCount(this.sequence, ack) >= 0
      modifies this, packets
      ensures Valid() && Model() == M.PacketReceived(old(Model()), sequence, ack, ackBits)
    {
      ProcessSequence(sequence);
      ProcessAck(ack, ackBits);
      totalReceivedPackets := totalReceivedPackets + 1;
    }

    method ProcessSequence(sequence: uint32)
      requires Valid()
      modifies this`ack, this`ackBits
      ensures Valid() && Model() == old(Model()).(seen := R.ProcessSequence(old(R.Seen(ack, ackBits)), sequence))
    {
      if IsMoreRecent(sequence, ack) {
        var shifts := if sequence > ack then sequence - ack else WrappedGap(ack, sequence);
        if shifts < 32 {
          ackBits := ShiftLeft(ackBits, shifts);
          ackBits := SetBit(ackBits, 0);
        } else {
          ackBits := 0;
        }
        ack := sequence;
      } else {
        var shifts := if ack >= sequence then ack - sequence else WrappedGap(sequence, ack);
        if shifts < 32 {
          ackBits := SetBit(ackBits, shifts);
        }
      }
    }

    /** The walk starts at the slot of `ack` and runs 31 slots backwards round the ring. */
    method ProcessAck(ack: uint32, ackBits: uint32)
      requires Valid() && M.AckCount(sequence, ack) >= 0
      modifies this`totalAckedPackets, this`rtt, packets
      ensures Valid() && Model() == M.ProcessAck(old(Model()), ack, ackBits)
    {
      if frontSent == back {
        return;
      }
      var count := if sequence > ack then sequence - ack else sequence - ack + SEQUENCE_SPACE;
      if count < CAPACITY {
        AckWalk(count, ackBits, M.ACK_WALK);
      }
    }

    /** The ring index d steps behind `back`. */
    ghost function RingIndex(d: nat): nat
      requires Valid() && d <= 2 * CAPACITY
      reads this, packets
    {
      var j := M.Slot(d);
      if back + j < CAPACITY then back + j else back + j - CAPACITY
    }

    lemma StepBack(d: nat)
      requires Valid() && d < 2 * CAPACITY
      ensures RingIndex(d) < CAPACITY && RingIndex(d + 1) == Decrease(RingIndex(d), 1, CAPACITY)
      ensures d <= CAPACITY ==> RingIndex(d) == Decrease(back, d, CAPACITY)
    {
    }

    method AckWalk(count: nat, ackBits: uint32, n: nat)
      requires Valid() && count < CAPACITY && n <= M.ACK_WALK
      modifies this`totalAckedPackets, this`rtt, packets
      ensures Valid() && Model() == M.AckSteps(old(Model()), count, ackBits, n)
    {
      hide Rotated, Bit, M.AckOne;
      var pivot := Decrease(back, count, CAPACITY);
      var bits: nat := ackBits;
      StepBack(count);
      for p := 0 to n
        invariant Valid() && pivot == RingIndex(count + p)
        invariant bits == ShiftRight(ackBits, p)
        invariant Model() == M.AckSteps(old(Model()), count, ackBits, p)
      {
        StepBack(count + p);
        ShiftRightBit(ackBits, p);
        AckStepsNext(old(Model()), count, ackBits, p);
        AckPacket(pivot, bits % 2 == 1, M.Slot(count + p));
        bits := bits / 2;
        pivot := Decrease(pivot, 1, CAPACITY);
      }
    }

    method AckPacket(pivot: nat, marked: bool, ghost j: nat)
      requires Valid() && j < CAPACITY
      requires pivot == if back + j < CAPACITY then back + j else back + j - CAPACITY
      modifies this`totalAckedPackets, this`rtt, packets
      ensures Valid() && Model() == M.AckOne(old(Model()), j, marked)
    {
      ghost var ring := packets[..];
      assert Recent()[j] == packets[pivot];
      if !packets[pivot].acked && marked {
        ghost var p := ring[pivot].(acked := true);
        RotatedStore(ring, back, j, p);
        packets[pivot] := packets[pivot].(acked := true);
        assert packets[..] == ring[pivot := p];
        totalAckedPackets := totalAckedPackets + 1;
        rtt := rtt + (packets[pivot].time - rtt) * 0.1;
      }
    }

    method Update(deltaTime: real)
      requires Valid()
      modifies this, packets
      ensures Valid() && Model() == M.Update(old(Model()), deltaTime)
    {
      if frontSent == back {
        return;
      }
      AgeAll(deltaTime);
      ExpireSent();
      ExpireAcked();
      Tally();
    }

    method AgeAll(deltaTime: real)
      requires Valid()
      modifies packets
      ensures Valid() && Model() == old(Model()).(recent := M.Aged(old(Model()).recent, deltaTime))
    {
      for i := 0 to CAPACITY
        invariant forall k :: 0 <= k < i ==> packets[k] == old(packets[k]).(time := old(packets[k]).time + deltaTime)
        invariant forall k :: i <= k < CAPACITY ==> packets[k] == old(packets[k])
      {
        packets[i] := packets[i].(time := packets[i].time + deltaTime);
      }
      assert Model().recent == M.Aged(old(Model()).recent, deltaTime);
    }

    /** Slot `i`, read as a distance from `back`. */
    lemma SlotInRing(i: nat)
      requires Valid() && i < CAPACITY && i != back
      ensures 0 < Distance(i, back) && packets[i] == Recent()[CAPACITY - Distance(i, back)]
    {
    }

    method ExpireSent()
      requires Valid()
      modifies this`frontSent, this`sentBytes, this`totalLostPackets
      ensures Valid() && Model() == M.ExpireSent(old(Model()))
    {
      while frontSent != back && packets[frontSent].time > M.MAX_RTT + M.EPSILON
        invariant Valid() && M.ExpireSent(Model()) == M.ExpireSent(old(Model()))
        decreases Distance(frontSent, back)
      {
        SlotInRing(frontSent);
        DropSent();
      }
      if frontSent != back {
        SlotInRing(frontSent);
      }
    }

    method DropSent()
      requires Valid() && frontSent != back
      modifies this`frontSent, this`sentBytes, this`totalLostPackets
      ensures Valid() && Model() == M.DropSent(old(Model()))
      ensures Distance(frontSent, back) == old(Distance(frontSent, back)) - 1
    {
      SlotInRing(frontSent);
      sentBytes := sentBytes - packets[frontSent].size;
      if !packets[frontSent].acked {
        totalLostPackets := totalLostPackets + 1;
      }
      frontSent := Increase(frontSent, CAPACITY);
    }

    method ExpireAcked()
      requires Valid()
      modifies this`frontAcked
      ensures Valid() && Model() == M.ExpireAcked(old(Model()))
    {
      hide Rotated;
      while frontAcked != back && packets[frontAcked].time > M.MAX_RTT * 2.0 - M.EPSILON
        invariant Valid() && M.ExpireAcked(Model()) == M.ExpireAcked(old(Model()))
        decreases Distance(frontAcked, back)
      {
        SlotInRing(frontAcked);
        DropAcked();
      }
      if frontAcked != back {
        SlotInRing(frontAcked);
      }
    }

    method DropAcked()
      requires Valid() && frontAcked != back
      modifies this`frontAcked
      ensures Valid() && Model() == old(Model()).(ackedLen := old(Model()).ackedLen - 1)
      ensures Distance(frontAcked, back) == old(Distance(frontAcked, back)) - 1
    {
      frontAcked := Increase(frontAcked, CAPACITY);
    }

    method Tally()
      requires Valid()
      modifies this`ackedPackets, this`ackedBytes
      ensures Valid()
      ensures var w := M.AckedWindow(old(Model()));
              Model() == old(Model()).(ackedPackets := M.CountSettled(w), ackedBytes := M.SettledBytes(w))
    {
      hide M.CountSettled, M.SettledBytes, Rotated;
      ackedPackets, ackedBytes := 0, 0;
      ghost var w, n := M.AckedWindow(Model()), 0;
      M.TallyNone(w);
      var pivot: nat := frontAcked;
      while pivot != back
        invariant pivot < CAPACITY && 0 <= n <= |w| && n + Distance(pivot, back) == |w|
        invariant ackedPackets == M.CountSettled(w[..n]) && ackedBytes == M.SettledBytes(w[..n])
        decreases Distance(pivot, back)
      {
        SlotInRing(pivot);
        M.TallyNext(w, n);
        if packets[pivot].acked {
          if packets[pivot].time >= M.MAX_RTT {
            ackedPackets := ackedPackets + 1;
            ackedBytes := ackedBytes + packets[pivot].size;
          }
        }
        pivot := Increase(pivot, CAPACITY);
        n := n + 1;
      }
      assert w[..n] == w;
    }
  }
}
