/** The 32-bit acknowledgement field, as the unsigned integer the program keeps.
    Bit(b, i) reads bit i; the three updates are the C operators `<<=`, `|= 1`
    and `|= 1 << s`, written out in arithmetic because an unsigned int drops
    what is shifted past bit 31. */
module AckBits {

  import opened MachineInts

  const TWO_TO_32: nat := 0x1_0000_0000

  function Pow2(n: nat): (p: nat)
    ensures p > 0
  {
    if n == 0 then 1 else 2 * Pow2(n - 1)
  }

  predicate Bit(b: nat, i: nat)
  {
    if i == 0 then b % 2 == 1 else Bit(b / 2, i - 1)
  }

  /** `b << s` on a 32-bit unsigned integer. */
  function ShiftLeft(b: uint32, s: nat): uint32
  {
    if s == 0 then b else (2 * ShiftLeft(b, s - 1)) % TWO_TO_32
  }

  /** `b | (1 << s)`. */
  function SetBit(b: uint32, s: nat): (r: uint32)
    requires s < 32
    ensures forall i: nat :: Bit(r, i) <==> i == s || Bit(b, i)
  {
    if Bit(b, s) then b
    else
      BitAdd(b, s);
      WordSizes();
      ClearBitRoom(b, s, 32);
      b + Pow2(s)
  }

  lemma {:induction false} WordSizes()
    ensures Pow2(16) == 0x1_0000 && Pow2(32) == TWO_TO_32
  {
    assert Pow2(8) == 256;
    assert Pow2(16) == 256 * Pow2(8);
    assert Pow2(24) == 256 * Pow2(16);
    assert Pow2(32) == 256 * Pow2(24);
  }

  /** A number below 2^n whose bit s < n is clear stays below 2^n when 2^s is added. */
  lemma {:induction false} ClearBitRoom(b: nat, s: nat, n: nat)
    requires s < n && b < Pow2(n) && !Bit(b, s)
    ensures b + Pow2(s) < Pow2(n)
  {
    if s > 0 {
      ClearBitRoom(b / 2, s - 1, n - 1);
      assert Pow2(n) == 2 * Pow2(n - 1) && Pow2(s) == 2 * Pow2(s - 1);
    } else {
      assert Pow2(n) == 2 * Pow2(n - 1);
    }
  }

  lemma {:induction false} BitAdd(b: nat, s: nat)
    requires !Bit(b, s)
    ensures forall i: nat :: Bit(b + Pow2(s), i) <==> i == s || Bit(b, i)
  {
    forall i: nat
      ensures Bit(b + Pow2(s), i) <==> i == s || Bit(b, i)
    {
      BitAddAt(b, s, i);
    }
  }

  lemma {:induction false} BitAddAt(b: nat, s: nat, i: nat)
    requires !Bit(b, s)
    ensures Bit(b + Pow2(s), i) <==> i == s || Bit(b, i)
  {
    if s == 0 {
      if i > 0 {
        assert (b + 1) / 2 == b / 2;
      }
    } else {
      assert (b + Pow2(s)) / 2 == b / 2 + Pow2(s - 1);
      if i > 0 {
        BitAddAt(b / 2, s - 1, i - 1);
      }
    }
  }

  /** Subtracting 2^k leaves the bits below k alone. */
  lemma {:induction false} BitSub(b: nat, k: nat, i: nat)
    requires i < k && Pow2(k) <= b
    ensures Bit(b - Pow2(k), i) == Bit(b, i)
  {
    assert (b - Pow2(k)) / 2 == b / 2 - Pow2(k - 1);
    if i > 0 {
      BitSub(b / 2, k - 1, i - 1);
    }
  }

  lemma {:induction false} EvenBit(b: nat, i: nat)
    ensures Bit(2 * b, i) <==> i > 0 && Bit(b, i - 1)
  {
    if i == 0 {
      assert (2 * b) % 2 == 0;
    } else {
      assert (2 * b) / 2 == b;
    }
  }

  /** The top bit falls off, and the rest move up by one. */
  lemma {:induction false} DoubleBit(b: uint32, i: nat)
    requires i < 32
    ensures Bit((2 * b) % TWO_TO_32, i) <==> i > 0 && Bit(b, i - 1)
  {
    hide Bit;
    WordSizes();
    EvenBit(b, i);
    if 2 * b < TWO_TO_32 {
      assert (2 * b) % TWO_TO_32 == 2 * b;
    } else {
      assert (2 * b) % TWO_TO_32 == 2 * b - TWO_TO_32;
      BitSub(2 * b, 32, i);
    }
  }

  /** A left shift moves every bit up by s and brings in zeros. */
  lemma {:induction false} ShiftLeftBit(b: uint32, s: nat, i: nat)
    requires i < 32
    ensures Bit(ShiftLeft(b, s), i) <==> i >= s && Bit(b, i - s)
  {
    if s > 0 {
      DoubleBit(ShiftLeft(b, s - 1), i);
      if i > 0 {
        ShiftLeftBit(b, s - 1, i - 1);
      }
    }
  }

  lemma {:induction false} ZeroBit(i: nat)
    ensures !Bit(0, i)
  {
    if i > 0 {
      ZeroBit(i - 1);
    }
  }

  lemma {:induction false} NoBits()
    ensures forall i :: 0 <= i < 32 ==> !Bit(0, i)
  {
    forall i | 0 <= i < 32
      ensures !Bit(0, i)
    {
      ZeroBit(i);
    }
  }

  /** Walking a field with `& 1` and `>>= 1`: after n steps bit i has become bit i - n. */
  function ShiftRight(b: nat, n: nat): nat
  {
    if n == 0 then b else ShiftRight(b / 2, n - 1)
  }

  lemma {:induction false} ShiftRightBit(b: nat, n: nat)
    ensures Bit(b, n) <==> ShiftRight(b, n) % 2 == 1
    ensures ShiftRight(b, n + 1) == ShiftRight(b, n) / 2
  {
    if n > 0 {
      ShiftRightBit(b / 2, n - 1);
    }
  }
}
