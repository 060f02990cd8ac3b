/** Where each field lies in the bytes, said without the codecs' own functions: by
    the positional value of bytes, and byte by byte. */
module WireLayout {
  import opened Basics
  import opened MachineInts
  import opened Bitstream
  import opened NetAddr
  import SP = StreamProtocol
  import TP = TransactionProtocol

  /** Most significant byte first. */
  function BigValue(b: seq<byte>): nat
  {
    if b == [] then 0 else 0x100 * BigValue(Front(b)) + Last(b)
  }

  /** Least significant byte first. */
  function LittleValue(b: seq<byte>): nat
  {
    if b == [] then 0 else b[0] + 0x100 * LittleValue(b[1..])
  }

  lemma BigNext(b: seq<byte>, x: byte)
    ensures BigValue(b + [x]) == 0x100 * BigValue(b) + x
  {
    assert Front(b + [x]) == b;
  }

  lemma LittleNext(x: byte, b: seq<byte>)
    ensures LittleValue([x] + b) == x + 0x100 * LittleValue(b)
  {
    assert ([x] + b)[1..] == b;
  }

  lemma {:induction false} Read16(b: seq<byte>)
    requires |b| == 2
    ensures FromBig16(b) == BigValue(b) && FromLittle16(b) == LittleValue(b)
  {
    BigNext([], b[0]);
    BigNext([b[0]], b[1]);
    LittleNext(b[1], []);
    LittleNext(b[0], [b[1]]);
    assert b == [] + [b[0]] + [b[1]] == [b[0]] + ([b[1]] + []);
  }

  lemma {:induction false} Read32(b: seq<byte>)
    requires |b| == 4
    ensures FromBig32(b) == BigValue(b) && FromLittle32(b) == LittleValue(b)
  {
    Read16(b[..2]);
    Read16(b[2..]);
    BigNext(b[..2], b[2]);
    BigNext(b[..2] + [b[2]], b[3]);
    LittleNext(b[1], b[2..]);
    LittleNext(b[0], [b[1]] + b[2..]);
    assert b == b[..2] + [b[2]] + [b[3]] && b == [b[0]] + ([b[1]] + b[2..]);
  }

  lemma {:induction false} Read64(b: seq<byte>)
    requires |b| == 8
    ensures FromBig64(b) == BigValue(b)
  {
    hide BigValue, FromBig32;
    var hi, lo := b[..4], b[4..];
    Read32(hi);
    Read32(lo);
    assert b == hi + lo;
    Positions(hi, lo);
  }

  lemma TwoMore(hi: seq<byte>, lo: seq<byte>)
    requires |lo| == 2
    ensures BigValue(hi + lo) == 0x1_0000 * BigValue(hi) + BigValue(lo)
  {
    BigNext([], lo[0]);
    BigNext([] + [lo[0]], lo[1]);
    BigNext(hi, lo[0]);
    BigNext(hi + [lo[0]], lo[1]);
    assert lo == [] + [lo[0]] + [lo[1]];
    assert hi + lo == hi + [lo[0]] + [lo[1]];
  }

  lemma Positions(hi: seq<byte>, lo: seq<byte>)
    requires |lo| == 4
    ensures BigValue(hi + lo) == 0x1_0000_0000 * BigValue(hi) + BigValue(lo)
  {
    hide BigValue;
    var p, q := lo[..2], lo[2..];
    TwoMore(hi, p);
    TwoMore(hi + p, q);
    TwoMore(p, q);
    assert lo == p + q && hi + lo == hi + p + q;
  }

  /** Integers are written so that their bytes have their value. */
  lemma Written(x: nat)
    ensures x < 0x1_0000 ==> BigValue(Big16(x)) == x && LittleValue(Little16(x)) == x
    ensures x < 0x1_0000_0000 ==> BigValue(Big32(x)) == x && LittleValue(Little32(x)) == x
    ensures x < 0x1_0000_0000_0000_0000 ==> BigValue(Big64(x)) == x
  {
    hide BigValue, LittleValue, Big16, Big32, Big64, Little16, Little32;
    if x < 0x1_0000 {
      Integers16(x);
      Read16(Big16(x));
      Read16(Little16(x));
    }
    if x < 0x1_0000_0000 {
      Integers32(x);
      Read32(Big32(x));
      Read32(Little32(x));
    }
    if x < 0x1_0000_0000_0000_0000 {
      Integers64(x);
      Read64(Big64(x));
    }
  }

  // ----- the stream packet

  /** Every byte of a packet as it is packed. */
  lemma StreamPacketLayout(h: SP.Header, d: SP.Data)
    requires |d.body| <= 231
    ensures var b := AppendAll(AppendAll([], SP.HeaderChunks(h), 256), SP.DataChunks(d), 256);
            && |b| == 25 + |d.body| && b[..3] == [0xa2, 0x01, 0x05]
            && BigValue(b[3..7]) == h.sequence && BigValue(b[7..11]) == h.ack && BigValue(b[11..15]) == h.ackBits
            && BigValue(b[15..23]) == d.tag && BigValue(b[23..25]) == |d.body|
            && forall i :: 0 <= i < |d.body| ==> b[25..][i] == d.body[|d.body| - 1 - i]
  {
    hide BigValue, LittleValue, Big16, Big32, Big64;
    SP.PacketFits(h, d);
    Written(h.sequence);
    Written(h.ack);
    Written(h.ackBits);
    Written(d.tag);
    Written(|d.body|);
    var b := SP.HeaderBytes(h) + SP.DataBytes(d);
    assert b[3..7] == Big32(h.sequence) && b[7..11] == Big32(h.ack) && b[11..15] == Big32(h.ackBits);
    assert b[15..23] == Big64(d.tag) && b[23..25] == Big16(|d.body|) && b[25..] == Reversed(d.body);
  }

  /** A header is accepted if and only if its first three bytes are the protocol's. */
  lemma StreamHeaderRead(b: seq<byte>)
    requires |b| >= 15
    ensures var h := SP.DecodeHeader(b);
            && (h.Some? <==> b[..3] == [0xa2, 0x01, 0x05])
            && (h.Some? ==> BigValue(b[3..7]) == h.value.sequence && BigValue(b[7..11]) == h.value.ack
                            && BigValue(b[11..15]) == h.value.ackBits)
  {
    hide BigValue, FromBig32;
    Read32(b[3..7]);
    Read32(b[7..11]);
    Read32(b[11..15]);
    assert b[..3] == [b[0], b[1], b[2]];
  }

  /** A body whose declared length does not remain is not read. */
  lemma StreamDataRead(b: seq<byte>)
    requires |b| >= 10
    ensures var (tag, n, body) := SP.DecodeData(b);
            && tag == BigValue(b[..8]) && n == BigValue(b[8..10])
            && (10 + n <= |b| ==> |body| == n && forall i :: 0 <= i < n ==> body[i] == b[10 + n - 1 - i])
            && (10 + n > |b| ==> body == [])
  {
    hide BigValue, FromBig64, FromBig16;
    Read64(b[..8]);
    Read16(b[8..10]);
  }

  // ----- transaction attributes

  /** Every byte of the attributes as they are packed. */
  lemma StringLayout(s: seq<byte>)
    requires |s| < 32
    ensures var b := TP.StringBytes(s);
            && |b| == 3 + |s| && b[..3] == [0x01, 2 + |s|, |s|]
            && forall i :: 0 <= i < |s| ==> b[3..][i] == s[|s| - 1 - i]
  {
  }

  lemma NumbersLayout(a: Address, n: uint16)
    ensures var b := TP.AddressBytes(a);
            b[..2] == [0x02, 0x08] && LittleValue(b[2..4]) == a.port && LittleValue(b[4..8]) == a.host
    ensures var b := TP.CountBytes(n);
            b[..2] == [0x04, 0x02] && BigValue(b[2..4]) == n
  {
    hide BigValue, LittleValue, Big16, Little16, Little32;
    Written(a.port);
    Written(a.host);
    Written(n);
    var b, c := TP.AddressBytes(a), TP.CountBytes(n);
    assert b[..2] == [0x02, 0x08] && b[2..4] == Little16(a.port) && b[4..8] == Little32(a.host);
    assert c[..2] == [0x04, 0x02] && c[2..4] == Big16(n);
  }

  /** What is read from any bytes. An attribute is refused by its first byte or, but for
      strings, by its second; a string too long for its field leaves the field alone. */
  lemma AttributeRead(b: seq<byte>, s: seq<byte>, a: Address, n: nat)
    requires |b| >= 8
    ensures var r := TP.DecodeString(b, 32, s);
            && r.Unpacked? && (r.valid <==> b[0] == 0x01) && (!r.valid ==> r.value == s && r.rest == b[1..])
            && (r.valid && b[2] >= 32 ==> r.value == s && r.rest == b[3..])
            && (r.valid && b[2] < 32 && 3 + b[2] <= |b| ==>
                  && |r.value| == b[2] && r.rest == b[3 + b[2]..]
                  && forall i :: 0 <= i < b[2] ==> r.value[i] == b[3 + b[2] - 1 - i])
            && (r.valid && b[2] < 32 && 3 + b[2] > |b| ==>
                  r.rest == b[3..] && r.value == if b[2] < |s| then s[..b[2]] else s)
    ensures var r := TP.DecodeAddress(b, a);
            && r.Unpacked? && (r.valid <==> b[..2] == [0x02, 0x08])
            && r.rest == (if r.valid then b[8..] else if b[0] == 0x02 then b[2..] else b[1..])
            && (r.valid ==> LittleValue(b[2..4]) == r.value.port && LittleValue(b[4..8]) == r.value.host)
            && (!r.valid ==> r.value == a)
    ensures var r := TP.DecodeCount(b, n);
            && r.Unpacked? && (r.valid <==> b[..2] == [0x04, 0x02])
            && r.rest == (if r.valid then b[4..] else if b[0] == 0x04 then b[2..] else b[1..])
            && (r.valid ==> BigValue(b[2..4]) == r.value)
            && (!r.valid ==> r.value == n)
  {
    hide BigValue, LittleValue, FromBig16, FromLittle16, FromLittle32;
    Read16(b[2..4]);
    Read32(b[4..8]);
    assert b[..2] == [b[0], b[1]];
    assert b[2..][1..] == b[3..];
    if b[2] < 32 && 3 + b[2] <= |b| {
      assert b[3..][..b[2]] == b[3..3 + b[2]] && b[3..][b[2]..] == b[3 + b[2]..];
    }
  }
}
