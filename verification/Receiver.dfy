/** What a peer remembers about the numbers it has received: the newest one,
    `ack`, and a 32-bit field in which bit i stands for number `ack - i`. */
module Receiver {
  import opened Basics
  import opened AckBits
  import opened MachineInts
  import opened SequenceNumbers

  datatype Seen = Seen(ack: uint32, ackBits: uint32)

  const NothingSeen := Seen(0, 0)

  function ProcessSequence(s: Seen, sequence: uint32): Seen
  {
    if IsMoreRecent(sequence, s.ack) then
      var shifts := if sequence > s.ack then sequence - s.ack else WrappedGap(s.ack, sequence);
      Seen(sequence, if shifts < 32 then SetBit(ShiftLeft(s.ackBits, shifts), 0) else 0)
    else
      var shifts := if s.ack >= sequence then s.ack - sequence else WrappedGap(sequence, s.ack);
      Seen(s.ack, if shifts < 32 then SetBit(s.ackBits, shifts) else s.ackBits)
  }

  /** Every set bit names, modulo 65536, a number that has arrived. */
  ghost predicate Sound(s: Seen, arrived: set<nat>)
  {
    forall i :: 0 <= i < 32 && Bit(s.ackBits, i) ==> (s.ack - i) % SEQUENCE_SPACE in arrived
  }

  /** Soundness needs nothing of the network: any 32-bit number may arrive, in any order, any number of times. */
  lemma ProcessSequenceSound(s: Seen, arrived: set<nat>, sequence: uint32)
    requires Sound(s, arrived)
    ensures Sound(ProcessSequence(s, sequence), arrived + {sequence % SEQUENCE_SPACE})
  {
    WrappedGapResidue(s.ack, sequence);
    WrappedGapResidue(sequence, s.ack);
    if IsMoreRecent(sequence, s.ack) {
      var shifts := if sequence > s.ack then sequence - s.ack else WrappedGap(s.ack, sequence);
      if shifts < 32 {
        ShiftedSound(s, arrived, sequence, shifts);
      } else {
        NoBits();
      }
    } else {
      var shifts := if s.ack >= sequence then s.ack - sequence else WrappedGap(sequence, s.ack);
      Congruent(s.ack - shifts, sequence);
    }
  }

  lemma ShiftedSound(s: Seen, arrived: set<nat>, sequence: uint32, shifts: nat)
    requires Sound(s, arrived) && shifts < 32
    requires (sequence - s.ack - shifts) % SEQUENCE_SPACE == 0
    ensures Sound(Seen(sequence, SetBit(ShiftLeft(s.ackBits, shifts), 0)), arrived + {sequence % SEQUENCE_SPACE})
  {
    forall i | 0 < i < 32 && Bit(ShiftLeft(s.ackBits, shifts), i)
      ensures (sequence - i) % SEQUENCE_SPACE in arrived
    {
      ShiftLeftBit(s.ackBits, shifts, i);
      Congruent(sequence - i, s.ack - (i - shifts));
    }
  }

  lemma Congruent(x: int, y: int)
    requires (x - y) % SEQUENCE_SPACE == 0 || (y - x) % SEQUENCE_SPACE == 0
    ensures x % SEQUENCE_SPACE == y % SEQUENCE_SPACE
  {
  }

  /** The receiver on unwrapped numbers: the newest number, and the set the field keeps. */
  datatype Remote = Remote(newest: nat, kept: set<int>)

  const NothingKept := Remote(0, {})

  /** A jump of 32 or more forgets everything, the arriving number included. */
  function Arrive(r: Remote, n: nat): Remote
  {
    if n >= r.newest + 32 then Remote(n, {})
    else Remote(if n > r.newest then n else r.newest, r.kept + {n})
  }

  ghost predicate Represents(s: Seen, r: Remote)
  {
    && s.ack == r.newest % SEQUENCE_SPACE
    && (forall i :: 0 <= i < 32 ==> (Bit(s.ackBits, i) <==> r.newest - i in r.kept))
    && (forall n :: n in r.kept ==> n <= r.newest)
  }

  predicate InWindow(r: Remote, n: nat)
  {
    r.newest - 32767 <= n <= r.newest + 32767
  }

  /** The 16-bit arithmetic implements Arrive across every wrap of the number space. */
  lemma ProcessSequenceRefines(s: Seen, r: Remote, n: nat)
    requires Represents(s, r) && InWindow(r, n)
    ensures Represents(ProcessSequence(s, n % SEQUENCE_SPACE), Arrive(r, n))
  {
    MoreRecentIsLater(n, r.newest);
    var t, q := ProcessSequence(s, n % SEQUENCE_SPACE), Arrive(r, n);
    forall i | 0 <= i < 32
      ensures Bit(t.ackBits, i) <==> q.newest - i in q.kept
    {
      ZeroBit(i);
      if n > r.newest {
        ShiftLeftBit(s.ackBits, n - r.newest, i);
      }
    }
  }

  function RunWire(numbers: seq<nat>): Seen
  {
    if numbers == [] then NothingSeen
    else ProcessSequence(RunWire(Front(numbers)), Last(numbers) % SEQUENCE_SPACE)
  }

  function RunRemote(numbers: seq<nat>): Remote
  {
    if numbers == [] then NothingKept
    else Arrive(RunRemote(Front(numbers)), Last(numbers))
  }

  /** Every arrival lies within 32767 of the newest number before it. */
  ghost predicate AllInWindow(numbers: seq<nat>)
  {
    numbers == [] ||
    (AllInWindow(Front(numbers)) && InWindow(RunRemote(Front(numbers)), Last(numbers)))
  }

  /** Whether the field says of the last 32 numbers exactly which have arrived. */
  ghost predicate Exact(numbers: seq<nat>)
  {
    var s, newest := RunWire(numbers), RunRemote(numbers).newest;
    forall i :: 0 <= i < 32 ==> (Bit(s.ackBits, i) <==> newest - i in Numbers(numbers))
  }

  ghost function Numbers(numbers: seq<nat>): set<int>
  {
    set k | 0 <= k < |numbers| :: numbers[k]
  }

  lemma {:induction false} RunRefines(numbers: seq<nat>)
    requires AllInWindow(numbers)
    ensures Represents(RunWire(numbers), RunRemote(numbers))
  {
    if numbers == [] {
      NoBits();
    } else {
      RunRefines(Front(numbers));
      ProcessSequenceRefines(RunWire(Front(numbers)), RunRemote(Front(numbers)), Last(numbers));
    }
  }

  /** What is kept was received, and the newest number is the largest received. */
  lemma {:induction false} KeptWasReceived(numbers: seq<nat>)
    ensures forall n :: n in RunRemote(numbers).kept ==> n in Numbers(numbers)
    ensures forall n :: n in Numbers(numbers) ==> n <= RunRemote(numbers).newest
    ensures RunRemote(numbers).newest == 0 || RunRemote(numbers).newest in Numbers(numbers)
  {
    if numbers != [] {
      KeptWasReceived(Front(numbers));
      NumbersSnoc(numbers);
    }
  }

  lemma NumbersSnoc(numbers: seq<nat>)
    requires numbers != []
    ensures Numbers(numbers) == Numbers(Front(numbers)) + {Last(numbers)}
  {
    var front, last := Front(numbers), Last(numbers);
    forall n | n in Numbers(numbers)
      ensures n in Numbers(front) + {last}
    {
      var k :| 0 <= k < |numbers| && numbers[k] == n;
      if k < |front| {
        assert front[k] == n;
      }
    }
    forall n | n in Numbers(front)
      ensures n in Numbers(numbers)
    {
      var k :| 0 <= k < |front| && front[k] == n;
      assert numbers[k] == n;
    }
    assert numbers[|front|] == last;
  }

  ghost predicate NoJump(numbers: seq<nat>)
  {
    numbers == [] ||
    (NoJump(Front(numbers)) && Last(numbers) < RunRemote(Front(numbers)).newest + 32)
  }

  /** Across every wrap of the 16-bit space, `ack` is the largest number received
      and a set bit names a number that was received. */
  lemma AckFieldNeverWrong(numbers: seq<nat>)
    requires AllInWindow(numbers)
    ensures RunWire(numbers).ack == RunRemote(numbers).newest % SEQUENCE_SPACE
    ensures forall n :: n in Numbers(numbers) ==> n <= RunRemote(numbers).newest
    ensures RunRemote(numbers).newest == 0 || RunRemote(numbers).newest in Numbers(numbers)
    ensures forall i :: 0 <= i < 32 && Bit(RunWire(numbers).ackBits, i) ==>
                          RunRemote(numbers).newest - i in Numbers(numbers)
  {
    RunRefines(numbers);
    KeptWasReceived(numbers);
    MarkedIn(RunWire(numbers), RunRemote(numbers), Numbers(numbers));
  }

  lemma MarkedIn(s: Seen, r: Remote, numbers: set<int>)
    requires Represents(s, r) && forall n :: n in r.kept ==> n in numbers
    ensures forall i :: 0 <= i < 32 && Bit(s.ackBits, i) ==> r.newest - i in numbers
  {
  }

  /** The field is complete at every moment of a run if and only if no arrival
      ran ahead of the newest number by 32 or more. */
  lemma AckFieldCompleteIffNoJump(numbers: seq<nat>)
    requires AllInWindow(numbers)
    ensures NoJump(numbers) <==> forall k :: 0 <= k <= |numbers| ==> Exact(numbers[..k])
  {
    if NoJump(numbers) {
      forall k | 0 <= k <= |numbers|
        ensures Exact(numbers[..k])
      {
        ExactWithoutJump(numbers, k);
      }
    } else {
      var k := JumpIsForgotten(numbers);
    }
  }

  lemma {:induction false} ExactWithoutJump(numbers: seq<nat>, k: nat)
    requires k <= |numbers| && AllInWindow(numbers) && NoJump(numbers)
    ensures Exact(numbers[..k])
  {
    if k < |numbers| {
      ExactWithoutJump(Front(numbers), k);
      assert Front(numbers)[..k] == numbers[..k];
    } else {
      assert numbers[..k] == numbers;
      KeptEverything(numbers);
      RunRefines(numbers);
      KeptIsExact(RunWire(numbers), RunRemote(numbers), Numbers(numbers));
    }
  }

  lemma KeptIsExact(s: Seen, r: Remote, numbers: set<int>)
    requires Represents(s, r) && r.kept == numbers
    ensures forall i :: 0 <= i < 32 ==> (Bit(s.ackBits, i) <==> r.newest - i in numbers)
  {
  }

  lemma {:induction false} KeptEverything(numbers: seq<nat>)
    requires NoJump(numbers)
    ensures RunRemote(numbers).kept == Numbers(numbers)
  {
    if numbers != [] {
      KeptEverything(Front(numbers));
      NumbersSnoc(numbers);
    }
  }

  lemma {:induction false} JumpIsForgotten(numbers: seq<nat>) returns (k: nat)
    requires AllInWindow(numbers) && !NoJump(numbers)
    ensures k <= |numbers| && !Exact(numbers[..k])
  {
    if NoJump(Front(numbers)) {
      k := |numbers|;
      assert numbers[..k] == numbers;
      RunRefines(numbers);
      NumbersSnoc(numbers);
      assert !Bit(RunWire(numbers).ackBits, 0);
    } else {
      k := JumpIsForgotten(Front(numbers));
      assert Front(numbers)[..k] == numbers[..k];
    }
  }

  /** The sender's counter skips 65535, the receiver's space does not: after two
      consecutive packets, the first of which is marked, the second's arrival
      marks its predecessor if and only if the sender did not wrap between them. */
  lemma SenderWrapLosesPredecessor(s: Seen, n: nat)
    requires s.ack == n % MAX_SEQUENCE && Bit(s.ackBits, 0)
    ensures var t := ProcessSequence(s, (n + 1) % MAX_SEQUENCE);
            && t.ack == (n + 1) % MAX_SEQUENCE && Bit(t.ackBits, 0)
            && (Bit(t.ackBits, 1) <==> (n + 1) % MAX_SEQUENCE != 0)
  {
    if (n + 1) % MAX_SEQUENCE == 0 {
      assert s.ack == MAX_SEQUENCE - 1;
      ShiftLeftBit(s.ackBits, 2, 1);
    } else {
      assert (n + 1) % MAX_SEQUENCE == n % MAX_SEQUENCE + 1;
      ShiftLeftBit(s.ackBits, 1, 1);
    }
  }
}
