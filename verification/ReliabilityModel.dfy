/** The sender side of the reliability layer without its ring: the last 35
    packets in the order sent, and how many of the newest are still in the sent
    window and in the acked window. */
module ReliabilityModel {
  import opened AckBits
  import opened Basics
  import opened MachineInts
  import opened SequenceNumbers
  import Receiver

  const MAX_RTT: real := 1.0
  const EPSILON: real := 0.0001

  /** How many bits of the acknowledgement field are looked at. */
  const ACK_WALK: nat := 31

  datatype Packet = Packet(sequence: nat, time: real, size: nat, acked: bool)

  datatype Reliability = Reliability(
    recent: seq<Packet>, // oldest first; the newest packet is the last
    sentLen: nat,
    ackedLen: nat,
    sequence: nat,
    seen: Receiver.Seen,
    totalSent: nat,
    totalReceived: nat,
    totalAcked: nat,
    totalLost: nat,
    sentBytes: int,
    ackedPackets: nat,
    ackedBytes: nat,
    rtt: real)

  const UNUSED := Packet(0, 0.0, 0, false)

  /** A cleared record: no slot has been used. */
  function Cleared(): Reliability
  {
    Reliability(seq(CAPACITY, _ => UNUSED), 0, 0, 0, Receiver.NothingSeen, 0, 0, 0, 0, 0, 0, 0, 0.0)
  }

  predicate Shaped(r: Reliability)
  {
    |r.recent| == CAPACITY && r.sentLen < CAPACITY && r.ackedLen < CAPACITY && r.sequence < MAX_SEQUENCE
  }

  function SentWindow(r: Reliability): seq<Packet>
    requires Shaped(r)
  {
    r.recent[CAPACITY - r.sentLen..]
  }

  function AckedWindow(r: Reliability): seq<Packet>
    requires Shaped(r)
  {
    r.recent[CAPACITY - r.ackedLen..]
  }

  function PacketSent(r: Reliability, size: nat): (t: Reliability)
    requires Shaped(r)
    ensures Shaped(t)
  {
    r.(recent := r.recent[1..] + [Packet(r.sequence, 0.0, size, false)],
       sentLen := if r.sentLen < CAPACITY - 1 then r.sentLen + 1 else r.sentLen,
       ackedLen := if r.ackedLen < CAPACITY - 1 then r.ackedLen + 1 else r.ackedLen,
       sequence := (r.sequence + 1) % MAX_SEQUENCE,
       totalSent := r.totalSent + 1,
       sentBytes := r.sentBytes + size)
  }

  // ----- acknowledgements

  /** How far behind the next sequence number the program takes `ack` to be. */
  function AckCount(sequence: nat, ack: uint32): int
  {
    if sequence > ack then sequence - ack else sequence - ack + SEQUENCE_SPACE
  }

  /** The slot d steps behind `back`, as an index into `recent`; past 35 steps it
      comes round to the newest packets again. */
  function Slot(d: nat): (j: nat)
    requires d <= 2 * CAPACITY
    ensures j < CAPACITY
  {
    if d == 0 then 0 else if d <= CAPACITY then CAPACITY - d else 2 * CAPACITY - d
  }

  function AckOne(r: Reliability, j: nat, marked: bool): (t: Reliability)
    requires Shaped(r) && j < CAPACITY
    ensures Shaped(t)
  {
    if marked && !r.recent[j].acked then
      r.(recent := r.recent[j := r.recent[j].(acked := true)],
         totalAcked := r.totalAcked + 1,
         rtt := r.rtt + (r.recent[j].time - r.rtt) * 0.1)
    else r
  }

  /** The effect of bits 0..n-1 of the field. */
  function AckSteps(r: Reliability, count: nat, ackBits: uint32, n: nat): (t: Reliability)
    requires Shaped(r) && count < CAPACITY && n <= ACK_WALK
    ensures Shaped(t)
  {
    if n == 0 then r
    else AckOne(AckSteps(r, count, ackBits, n - 1), Slot(count + n - 1), Bit(ackBits, n - 1))
  }

  function ProcessAck(r: Reliability, ack: uint32, ackBits: uint32): (t: Reliability)
    requires Shaped(r) && AckCount(r.sequence, ack) >= 0
    ensures Shaped(t)
  {
    var count := AckCount(r.sequence, ack);
    if r.sentLen == 0 || count >= CAPACITY then r else AckSteps(r, count, ackBits, ACK_WALK)
  }

  function PacketReceived(r: Reliability, sequence: uint32, ack: uint32, ackBits: uint32): (t: Reliability)
    requires Shaped(r) && AckCount(r.sequence, ack) >= 0
    ensures Shaped(t)
  {
    var q := ProcessAck(r.(seen := Receiver.ProcessSequence(r.seen, sequence)), ack, ackBits);
    q.(totalReceived := q.totalReceived + 1)
  }

  // ----- clock

  function Aged(s: seq<Packet>, dt: real): (t: seq<Packet>)
    ensures |t| == |s|
    ensures forall i :: 0 <= i < |s| ==> t[i] == s[i].(time := s[i].time + dt)
  {
    seq(|s|, i requires 0 <= i < |s| => s[i].(time := s[i].time + dt))
  }

  predicate SentExpired(r: Reliability)
    requires Shaped(r)
  {
    r.sentLen > 0 && r.recent[CAPACITY - r.sentLen].time > MAX_RTT + EPSILON
  }

  function DropSent(r: Reliability): (t: Reliability)
    requires Shaped(r) && r.sentLen > 0
    ensures Shaped(t)
  {
    var front := r.recent[CAPACITY - r.sentLen];
    r.(sentLen := r.sentLen - 1,
       sentBytes := r.sentBytes - front.size,
       totalLost := r.totalLost + if front.acked then 0 else 1)
  }

  /** Drops packets older than the longest round trip from the sent window. */
  function ExpireSent(r: Reliability): (t: Reliability)
    requires Shaped(r)
    ensures Shaped(t)
    decreases r.sentLen
  {
    if SentExpired(r) then ExpireSent(DropSent(r)) else r
  }

  function ExpireAcked(r: Reliability): (t: Reliability)
    requires Shaped(r)
    ensures Shaped(t)
    decreases r.ackedLen
  {
    if r.ackedLen > 0 && r.recent[CAPACITY - r.ackedLen].time > MAX_RTT * 2.0 - EPSILON then
      ExpireAcked(r.(ackedLen := r.ackedLen - 1))
    else r
  }

  predicate Settled(p: Packet)
  {
    p.acked && p.time >= MAX_RTT
  }

  function CountSettled(s: seq<Packet>): nat
  {
    if s == [] then 0 else CountSettled(Front(s)) + if Settled(Last(s)) then 1 else 0
  }

  function SettledBytes(s: seq<Packet>): nat
  {
    if s == [] then 0 else SettledBytes(Front(s)) + if Settled(Last(s)) then Last(s).size else 0
  }

  lemma TallyNone(s: seq<Packet>)
    ensures CountSettled(s[..0]) == 0 && SettledBytes(s[..0]) == 0
  {
  }

  lemma TallyNext(s: seq<Packet>, n: nat)
    requires n < |s|
    ensures CountSettled(s[..n + 1]) == CountSettled(s[..n]) + if Settled(s[n]) then 1 else 0
    ensures SettledBytes(s[..n + 1]) == SettledBytes(s[..n]) + if Settled(s[n]) then s[n].size else 0
  {
    assert Front(s[..n + 1]) == s[..n];
  }

  /** An empty sent window freezes every time. */
  function Update(r: Reliability, dt: real): (t: Reliability)
    requires Shaped(r)
    ensures Shaped(t)
  {
    if r.sentLen == 0 then r
    else
      var q := ExpireAcked(ExpireSent(r.(recent := Aged(r.recent, dt))));
      q.(ackedPackets := CountSettled(AckedWindow(q)), ackedBytes := SettledBytes(AckedWindow(q)))
  }
}
