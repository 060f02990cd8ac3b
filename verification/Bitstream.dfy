/** Bytes written and read in order, on a little-endian build: integers go out
    most significant byte first and byte strings go out reversed. */
module Bitstream {

  import opened MachineInts

  /** Two bytes, and two halves, put together. */
  function Join16(hi: nat, lo: nat): nat
  {
    hi * 0x100 + lo
  }

  function Join32(hi: nat, lo: nat): nat
  {
    hi * 0x1_0000 + lo
  }

  function Join64(hi: nat, lo: nat): nat
  {
    hi * 0x1_0000_0000 + lo
  }

  /** `x >> 8`. */
  function Shift(x: nat): nat
  {
    x / 0x100
  }

  /** Byte k of x, the lowest being byte 0. */
  function ByteOf(x: nat, k: nat): byte
    decreases x
  {
    if x == 0 then 0 else if k == 0 then x % 0x100 else ByteOf(Shift(x), k - 1)
  }

  lemma {:induction false} ByteShifted(x: nat, k: nat)
    ensures ByteOf(x, 0) == x % 0x100 && ByteOf(x, k + 1) == ByteOf(Shift(x), k)
  {
  }

  lemma {:induction false} Bytes(x: nat)
    ensures ByteOf(x, 0) == x % 0x100 && ByteOf(x, 1) == Shift(x) % 0x100
    ensures ByteOf(x, 2) == Shift(Shift(x)) % 0x100 && ByteOf(x, 3) == Shift(Shift(Shift(x))) % 0x100
  {
    var y := Shift(x);
    var z := Shift(y);
    ByteShifted(x, 0);
    ByteShifted(x, 1);
    ByteShifted(x, 2);
    ByteShifted(y, 0);
    ByteShifted(y, 1);
    ByteShifted(z, 0);
    ByteShifted(Shift(z), 0);
  }

  function Big16(x: nat): (b: seq<byte>)
    ensures |b| == 2
  {
    [ByteOf(x, 1), ByteOf(x, 0)]
  }

  function Big32(x: nat): (b: seq<byte>)
    ensures |b| == 4
  {
    [ByteOf(x, 3), ByteOf(x, 2), ByteOf(x, 1), ByteOf(x, 0)]
  }

  function Big64(x: nat): (b: seq<byte>)
    ensures |b| == 8
  {
    Big32(x / 0x1_0000_0000) + Big32(x % 0x1_0000_0000)
  }

  function FromBig16(b: seq<byte>): (x: uint16)
    requires |b| == 2
  {
    Join16(b[0], b[1])
  }

  function FromBig32(b: seq<byte>): (x: uint32)
    requires |b| == 4
  {
    Join32(Join16(b[0], b[1]), Join16(b[2], b[3]))
  }

  function FromBig64(b: seq<byte>): (x: uint64)
    requires |b| == 8
  {
    Join64(FromBig32(b[..4]), FromBig32(b[4..]))
  }

  /** The `_endian` variants keep the machine's order, low byte first. */
  function Little16(x: nat): (b: seq<byte>)
    ensures |b| == 2
  {
    [ByteOf(x, 0), ByteOf(x, 1)]
  }

  function Little32(x: nat): (b: seq<byte>)
    ensures |b| == 4
  {
    [ByteOf(x, 0), ByteOf(x, 1), ByteOf(x, 2), ByteOf(x, 3)]
  }

  function FromLittle16(b: seq<byte>): (x: uint16)
    requires |b| == 2
  {
    Join16(b[1], b[0])
  }

  function FromLittle32(b: seq<byte>): (x: uint32)
    requires |b| == 4
  {
    Join32(Join16(b[3], b[2]), Join16(b[1], b[0]))
  }

  lemma {:induction false} Integers16(x: uint16)
    ensures FromBig16(Big16(x)) == x && FromLittle16(Little16(x)) == x
  {
    Bytes(x);
  }

  /** Every integer is read back as it was written. */
  lemma {:induction false} Integers32(x: uint32)
    ensures FromBig32(Big32(x)) == x
    ensures FromLittle32(Little32(x)) == x
  {
    Bytes(x);
    var a := Shift(x);
    var b := Shift(a);
    var c := Shift(b);
    assert x == 0x100 * a + x % 0x100 && a == 0x100 * b + a % 0x100 && b == 0x100 * c + b % 0x100;
    assert c % 0x100 == c;
  }

  lemma {:induction false} Integers64(x: uint64)
    ensures FromBig64(Big64(x)) == x
  {
    hide Big32, FromBig32, FromLittle32, Little32;
    var hi, lo: uint32 := x / 0x1_0000_0000, x % 0x1_0000_0000;
    Integers32(hi);
    Integers32(lo);
    assert Big64(x)[..4] == Big32(hi) && Big64(x)[4..] == Big32(lo);
  }

  function Reversed<T>(s: seq<T>): (r: seq<T>)
    ensures |r| == |s|
    ensures forall i :: 0 <= i < |s| ==> r[i] == s[|s| - 1 - i]
  {
    seq(|s|, i requires 0 <= i < |s| => s[|s| - 1 - i])
  }

  lemma ReversedTwice<T>(s: seq<T>)
    ensures Reversed(Reversed(s)) == s
  {
  }

  /** The string read from the front of b into a destination that held another, and
      what follows it. One too long for the destination leaves it alone; one longer
      than what remains only cuts the old string short. */
  function StrOf(b: seq<byte>, maxLength: nat, was: seq<byte>): (seq<byte>, seq<byte>)
    requires b != []
  {
    var n, body := b[0], b[1..];
    if n + 1 > maxLength then (was, body)
    else if n <= |body| then (Reversed(body[..n]), body[n..])
    else (if n < |was| then was[..n] else was, body)
  }

  /** What a bounded write leaves: the chunk whole, or nothing of it. */
  function Append(packed: seq<byte>, chunk: seq<byte>, bound: nat): (r: seq<byte>)
    requires |packed| <= bound
    ensures |r| <= bound
  {
    if |packed| + |chunk| <= bound then packed + chunk else packed
  }

  function AppendAll(packed: seq<byte>, chunks: seq<seq<byte>>, bound: nat): (r: seq<byte>)
    requires |packed| <= bound
    ensures |r| <= bound
    decreases chunks
  {
    if chunks == [] then packed else AppendAll(Append(packed, chunks[0], bound), chunks[1..], bound)
  }

  /** The chunks that find room in their turn, after `used` bytes. */
  function Accepted(used: nat, chunks: seq<seq<byte>>, bound: nat): seq<seq<byte>>
    decreases chunks
  {
    if chunks == [] then []
    else if used + |chunks[0]| <= bound then [chunks[0]] + Accepted(used + |chunks[0]|, chunks[1..], bound)
    else Accepted(used, chunks[1..], bound)
  }

  function Flat(chunks: seq<seq<byte>>): seq<byte>
  {
    if chunks == [] then [] else chunks[0] + Flat(chunks[1..])
  }

  lemma {:induction false} FlatConcat(a: seq<seq<byte>>, b: seq<seq<byte>>)
    ensures Flat(a + b) == Flat(a) + Flat(b)
  {
    if a == [] {
      assert a + b == b;
    } else {
      assert (a + b)[1..] == a[1..] + b;
      FlatConcat(a[1..], b);
    }
  }

  lemma {:induction false} AppendAllConcat(packed: seq<byte>, a: seq<seq<byte>>, b: seq<seq<byte>>, bound: nat)
    requires |packed| <= bound
    ensures AppendAll(packed, a + b, bound) == AppendAll(AppendAll(packed, a, bound), b, bound)
    decreases a
  {
    if a == [] {
      assert a + b == b;
    } else {
      assert (a + b)[1..] == a[1..] + b;
      AppendAllConcat(Append(packed, a[0], bound), a[1..], b, bound);
    }
  }

  /** A sequence of bounded writes leaves the concatenation of the chunks that found room. */
  lemma {:induction false} AppendAllAccepted(packed: seq<byte>, chunks: seq<seq<byte>>, bound: nat)
    requires |packed| <= bound
    ensures AppendAll(packed, chunks, bound) == packed + Flat(Accepted(|packed|, chunks, bound))
    decreases chunks
  {
    if chunks == [] {
      assert packed + [] == packed;
    } else if |packed| + |chunks[0]| <= bound {
      var more := Accepted(|packed| + |chunks[0]|, chunks[1..], bound);
      AppendAllAccepted(packed + chunks[0], chunks[1..], bound);
      assert ([chunks[0]] + more)[1..] == more;
      assert (packed + chunks[0]) + Flat(more) == packed + (chunks[0] + Flat(more));
    } else {
      AppendAllAccepted(packed, chunks[1..], bound);
    }
  }

  lemma FlatThree(c: seq<seq<byte>>)
    requires |c| == 3
    ensures Flat(c) == c[0] + c[1] + c[2]
  {
    assert c[1..][1..] == c[2..] && c[2..][1..] == [];
    assert Flat(c[2..]) == c[2] + [];
    assert Flat(c[1..]) == c[1] + Flat(c[2..]);
  }

  lemma ThreeChunks(p: seq<byte>, c: seq<seq<byte>>, n: nat)
    requires |p| <= n && |c| == 3
    ensures AppendAll(p, c, n) == Append(Append(Append(p, c[0], n), c[1], n), c[2], n)
  {
    var q := Append(p, c[0], n);
    assert c[1..][1..] == c[2..] && c[2..][1..] == [];
    assert AppendAll(Append(q, c[1], n), c[2..], n) == Append(Append(q, c[1], n), c[2], n);
    assert AppendAll(q, c[1..], n) == AppendAll(Append(q, c[1], n), c[2..], n);
  }

  lemma {:induction false} AppendAllBounded(packed: seq<byte>, chunks: seq<seq<byte>>, bound: nat)
    requires |packed| <= bound
    ensures |AppendAll(packed, chunks, bound)| <= |packed| + |Flat(chunks)|
    decreases chunks
  {
    if chunks != [] {
      AppendAllBounded(Append(packed, chunks[0], bound), chunks[1..], bound);
    }
  }

  /** A sequence of bounded writes packs everything if and only if it all fits. */
  lemma {:induction false} PackedWholeIffFits(packed: seq<byte>, chunks: seq<seq<byte>>, bound: nat)
    requires |packed| <= bound
    ensures AppendAll(packed, chunks, bound) == packed + Flat(chunks) <==> |packed| + |Flat(chunks)| <= bound
    decreases chunks
  {
    if chunks == [] {
      assert packed + [] == packed;
    } else if |packed| + |chunks[0]| <= bound {
      PackedWholeIffFits(packed + chunks[0], chunks[1..], bound);
      assert (packed + chunks[0]) + Flat(chunks[1..]) == packed + Flat(chunks);
    } else {
      AppendAllBounded(packed, chunks[1..], bound);
    }
  }

  class Bitstream {
    const data: array<byte>
    const bound: nat
    var offset: nat

    ghost predicate Valid()
      reads this
    {
      offset <= bound <= data.Length
    }

    /** What has been written. */
    ghost function Packed(): (p: seq<byte>)
      requires Valid()
      reads this, data
      ensures |p| == offset
    {
      data[..offset]
    }

    /** What is left to read. */
    ghost function Rest(): (r: seq<byte>)
      requires Valid()
      reads this, data
      ensures |r| == bound - offset
    {
      data[offset..bound]
    }

    constructor (data: array<byte>, bound: nat)
      requires bound <= data.Length
      ensures Valid() && this.data == data && this.bound == bound && offset == 0
    {
      this.data := data;
      this.bound := bound;
      offset := 0;
    }

    method WriteBytes(src: seq<byte>) returns (written: nat)
      requires Valid()
      modifies this`offset, data
      ensures Valid() && Packed() == Append(old(Packed()), Reversed(src), bound)
      ensures written == if |src| <= bound - old(offset) then |src| else 0
    {
      if |src| > bound - offset {
        return 0;
      }
      ghost var before := Packed();
      for b := 0 to |src|
        invariant offset == old(offset) && data[..offset] == before
        invariant data[offset + |src| - b..offset + |src|] == Reversed(src[..b])
      {
        data[offset + |src| - b - 1] := src[b];
        assert src[..b + 1] == src[..b] + [src[b]];
        assert Reversed(src[..b + 1]) == [src[b]] + Reversed(src[..b]);
      }
      assert src[..|src|] == src;
      assert data[..offset + |src|] == before + Reversed(src);
      offset := offset + |src|;
      written := |src|;
    }

    /** Reads the whole string or, when less remains, nothing. */
    method ReadBytes(length: nat) returns (dest: seq<byte>)
      requires Valid()
      modifies this`offset
      ensures Valid()
      ensures if length <= bound - old(offset)
              then dest == Reversed(old(Rest())[..length]) && Rest() == old(Rest())[length..]
              else dest == [] && Rest() == old(Rest())
    {
      if length > bound - offset {
        return [];
      }
      dest := [];
      for b := 0 to length
        invariant |dest| == b && offset == old(offset)
        invariant forall k :: 0 <= k < b ==> dest[k] == data[offset + length - k - 1]
      {
        dest := dest + [data[offset + length - b - 1]];
      }
      offset := offset + length;
    }

    method WriteUint8(src: nat)
      requires Valid()
      modifies this`offset, data
      ensures Valid() && Packed() == Append(old(Packed()), [src % 0x100], bound)
    {
      if 1 > bound - offset {
        return;
      }
      data[offset] := src % 0x100;
      offset := offset + 1;
    }

    /** The reads do not look at the bound; their callers must know that enough remains. */
    method ReadUint8() returns (x: byte)
      requires Valid() && |Rest()| >= 1
      modifies this`offset
      ensures Valid() && x == old(Rest())[0] && Rest() == old(Rest())[1..]
    {
      x := data[offset];
      offset := offset + 1;
    }

    method WriteUint16(src: nat)
      requires Valid()
      modifies this`offset, data
      ensures Valid() && Packed() == Append(old(Packed()), Big16(src), bound)
    {
      Bytes(src);
      if 2 > bound - offset {
        return;
      }
      data[offset] := Shift(src) % 0x100;
      data[offset + 1] := src % 0x100;
      offset := offset + 2;
      assert Packed() == old(Packed()) + Big16(src);
    }

    method ReadUint16() returns (x: uint16)
      requires Valid() && |Rest()| >= 2
      modifies this`offset
      ensures Valid() && x == FromBig16(old(Rest())[..2]) && Rest() == old(Rest())[2..]
    {
      x := Join16(data[offset], data[offset + 1]);
      offset := offset + 2;
    }

    method WriteUint32(src: uint32)
      requires Valid()
      modifies this`offset, data
      ensures Valid() && Packed() == Append(old(Packed()), Big32(src), bound)
    {
      Bytes(src);
      if 4 > bound - offset {
        return;
      }
      data[offset] := Shift(Shift(Shift(src))) % 0x100;
      data[offset + 1] := Shift(Shift(src)) % 0x100;
      data[offset + 2] := Shift(src) % 0x100;
      data[offset + 3] := src % 0x100;
      offset := offset + 4;
      assert Packed() == old(Packed()) + Big32(src);
    }

    method ReadUint32() returns (x: uint32)
      requires Valid() && |Rest()| >= 4
      modifies this`offset
      ensures Valid() && x == FromBig32(old(Rest())[..4]) && Rest() == old(Rest())[4..]
    {
      x := Join32(Join16(data[offset], data[offset + 1]), Join16(data[offset + 2], data[offset + 3]));
      offset := offset + 4;
    }

    method WriteUint64(src: uint64)
      requires Valid()
      modifies this`offset, data
      ensures Valid() && Packed() == Append(old(Packed()), Big64(src), bound)
    {
      if 8 > bound - offset {
        return;
      }
      ghost var before := Packed();
      WriteUint32(src / 0x1_0000_0000);
      WriteUint32(src % 0x1_0000_0000);
      assert Packed() == before + Big64(src);
    }

    method ReadUint64() returns (x: uint64)
      requires Valid() && |Rest()| >= 8
      modifies this`offset
      ensures Valid() && x == FromBig64(old(Rest())[..8]) && Rest() == old(Rest())[8..]
    {
      ghost var b := Rest()[..8];
      var hi := ReadUint32();
      var lo := ReadUint32();
      assert b[..4] == old(Rest())[..4] && b[4..] == old(Rest())[4..][..4];
      x := Join64(hi, lo);
    }

    method WriteUint16Endian(src: nat)
      requires Valid()
      modifies this`offset, data
      ensures Valid() && Packed() == Append(old(Packed()), Little16(src), bound)
    {
      Bytes(src);
      if 2 > bound - offset {
        return;
      }
      data[offset] := src % 0x100;
      data[offset + 1] := Shift(src) % 0x100;
      offset := offset + 2;
      assert Packed() == old(Packed()) + Little16(src);
    }

    method ReadUint16Endian() returns (x: uint16)
      requires Valid() && |Rest()| >= 2
      modifies this`offset
      ensures Valid() && x == FromLittle16(old(Rest())[..2]) && Rest() == old(Rest())[2..]
    {
      x := Join16(data[offset + 1], data[offset]);
      offset := offset + 2;
    }

    method WriteUint32Endian(src: uint32)
      requires Valid()
      modifies this`offset, data
      ensures Valid() && Packed() == Append(old(Packed()), Little32(src), bound)
    {
      Bytes(src);
      if 4 > bound - offset {
        return;
      }
      data[offset] := src % 0x100;
      data[offset + 1] := Shift(src) % 0x100;
      data[offset + 2] := Shift(Shift(src)) % 0x100;
      data[offset + 3] := Shift(Shift(Shift(src))) % 0x100;
      offset := offset + 4;
      assert Packed() == old(Packed()) + Little32(src);
    }

    method ReadUint32Endian() returns (x: uint32)
      requires Valid() && |Rest()| >= 4
      modifies this`offset
      ensures Valid() && x == FromLittle32(old(Rest())[..4]) && Rest() == old(Rest())[4..]
    {
      x := Join32(Join16(data[offset + 3], data[offset + 2]), Join16(data[offset + 1], data[offset]));
      offset := offset + 4;
    }

    /** The length and the string in one piece, or nothing. */
    method WriteStr(src: seq<byte>) returns (written: nat)
      requires Valid()
      modifies this`offset, data
      ensures Valid() && Packed() == Append(old(Packed()), [|src| % 0x100] + Reversed(src), bound)
      ensures written == if |src| + 1 <= bound - old(offset) then |src| else 0
    {
      if |src| + 1 > bound - offset {
        return 0;
      }
      ghost var before := Packed();
      WriteUint8(|src|);
      written := WriteBytes(src);
      assert Packed() == before + ([|src| % 0x100] + Reversed(src));
    }

    method ReadStr(maxLength: nat, was: seq<byte>) returns (dest: seq<byte>)
      requires Valid() && |Rest()| >= 1
      modifies this`offset
      ensures Valid()
      ensures (dest, Rest()) == StrOf(old(Rest()), maxLength, was)
    {
      dest := was;
      var length := ReadUint8();
      if length + 1 > maxLength {
        return;
      }
      if length <= bound - offset {
        dest := ReadBytes(length);
      } else if length < |was| {
        dest := was[..length];
      }
    }
  }
}
