/** Wrapping counters of the reliability layer. */
module SequenceNumbers {
  import opened AckBits
  import opened MachineInts

  /** Largest 16-bit sequence number. Senders count modulo this value; receivers
      and the ack lookup count modulo one more. */
  const MAX_SEQUENCE: nat := 0xFFFF

  const SEQUENCE_SPACE: nat := 0x1_0000

  /** Slots in the ring of sent packets: 2.35 * 1.0 * 15 + 0.5, truncated. */
  const CAPACITY: nat := 35

  function Increase(value: nat, max: nat): (r: nat)
    requires value < max
    ensures r == if value + 1 == max then 0 else value + 1
  {
    (value + 1) % max
  }

  function Decrease(value: nat, count: nat, max: nat): nat
    requires count <= value + max
  {
    if value >= count then value - count else value + max - count
  }

  predicate IsMoreRecent(sequence: uint32, other: uint32)
  {
    || (sequence > other && sequence - other <= MAX_SEQUENCE / 2)
    || (other > sequence && other - sequence > MAX_SEQUENCE / 2)
  }

  /** `sequence - ack + kStreamReliabilityMaxSequence + 1` on unsigned ints. */
  function WrappedGap(from: uint32, to: uint32): uint32
  {
    (to - from + SEQUENCE_SPACE) % TWO_TO_32
  }

  lemma WrappedGapResidue(from: uint32, to: uint32)
    ensures (to - from - WrappedGap(from, to)) % SEQUENCE_SPACE == 0
  {
    var x := to - from + SEQUENCE_SPACE;
    var q := x / TWO_TO_32;
    assert x == TWO_TO_32 * q + x % TWO_TO_32;
    assert to - from - WrappedGap(from, to) == SEQUENCE_SPACE * (SEQUENCE_SPACE * q - 1);
  }

  /** Inside a window of 32767 the wire comparison is the order of the
      unwrapped numbers, and the gap is their distance. */
  lemma MoreRecentIsLater(n: nat, m: nat)
    requires m - 32767 <= n <= m + 32767
    ensures IsMoreRecent(n % SEQUENCE_SPACE, m % SEQUENCE_SPACE) <==> n > m
    ensures n > m ==>
              n - m == (if n % SEQUENCE_SPACE > m % SEQUENCE_SPACE then n % SEQUENCE_SPACE - m % SEQUENCE_SPACE
                        else WrappedGap(m % SEQUENCE_SPACE, n % SEQUENCE_SPACE))
    ensures n <= m ==>
              m - n == (if m % SEQUENCE_SPACE >= n % SEQUENCE_SPACE then m % SEQUENCE_SPACE - n % SEQUENCE_SPACE
                        else WrappedGap(n % SEQUENCE_SPACE, m % SEQUENCE_SPACE))
  {
    var a, b := n / SEQUENCE_SPACE, m / SEQUENCE_SPACE;
    assert n == SEQUENCE_SPACE * a + n % SEQUENCE_SPACE && m == SEQUENCE_SPACE * b + m % SEQUENCE_SPACE;
    assert -1 <= a - b <= 1;
  }
}
