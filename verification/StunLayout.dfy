/** STUN messages bit by bit and byte by byte, said without the codec's own functions. */
module StunLayout {
  import opened AckBits
  import opened Basics
  import opened Bitstream
  import opened MachineInts
  import opened NetAddr
  import opened StunProtocol
  import opened WireLayout

  // ----- the header

  /** Class and method interleaved: of the field's bits, 0 to 3, 5 to 7 and 9 to 13 are
      the method's, 4 and 8 the class's, and 14 and 15 zero. */
  lemma TypeFieldBits(kind: bv16, cls: bv16)
    requires kind < 0x1000 && cls < 4
    ensures var f := TypeField(kind, cls);
            && f & 0xF == kind & 0xF && (f >> 5) & 0x7 == (kind >> 4) & 0x7 && (f >> 9) & 0x1F == kind >> 7
            && (f >> 4) & 1 == cls & 1 && (f >> 8) & 1 == cls >> 1 && f >> 14 == 0
  {
  }

  /** A header is refused if and only if bytes 4 to 7 are not the cookie. */
  lemma HeaderRead(b: seq<byte>)
    requires |b| >= 20
    ensures var h := DecodeHeader(b);
            && (h.Some? <==> b[4..8] == [0x21, 0x12, 0xA4, 0x42])
            && (h.Some? ==>
                  && h.value.field == BigValue(b[..2]) && h.value.length == BigValue(b[2..4])
                  && |h.value.id| == 12 && forall i :: 0 <= i < 12 ==> h.value.id[i] == b[19 - i])
  {
    hide BigValue, LittleValue, FromBig16, FromLittle16, FromBig32, FromLittle32, Big32, Little32;
    Read16(b[..2]);
    Read16(b[2..4]);
    CookieBytes();
    Integers32(MAGIC_COOKIE);
    if FromBig32(b[4..8]) == MAGIC_COOKIE {
      CookieOnly(b[4..8]);
    }
  }

  lemma LastDigit(y: nat, d: byte, v: nat)
    requires 0x100 * y + d == v
    ensures y == v / 0x100 && d == v % 0x100
  {
  }

  lemma CookieOnly(b: seq<byte>)
    requires |b| == 4 && FromBig32(b) == MAGIC_COOKIE
    ensures b == [0x21, 0x12, 0xA4, 0x42]
  {
    var z: nat := Join16(b[0], b[1]);
    var y: nat := Join16(z, b[2]);
    assert FromBig32(b) == 0x100 * y + b[3];
    hide FromBig32;
    LastDigit(y, b[3], 0x2112A442);
    LastDigit(z, b[2], 0x2112A4);
    LastDigit(b[0], b[1], 0x2112);
  }

  // ----- the masked address

  lemma {:induction false} XorBit(x: nat, y: nat, i: nat)
    ensures Bit(Xor(x, y), i) <==> Bit(x, i) != Bit(y, i)
  {
    XorStep(x, y);
    hide Xor;
    if i > 0 {
      XorBit(x / 2, y / 2, i - 1);
    }
  }

  lemma XorBits(x: nat, y: nat)
    ensures forall i: nat :: Bit(Xor(x, y), i) <==> Bit(x, i) != Bit(y, i)
  {
    hide Bit, Xor;
    forall i: nat
      ensures Bit(Xor(x, y), i) <==> Bit(x, i) != Bit(y, i)
    {
      XorBit(x, y, i);
    }
  }

  lemma TakesAddress(b: seq<byte>, kind: uint16, tail: seq<byte>, remaining: nat, r: Response)
    requires |b| == 12 && b[2..6] == [0, 8, 0, 1] && IsAddress(kind) && remaining > 0
    requires BigValue(b[..2]) == kind
    ensures var a := Address(FromBig16(b[6..8]), FromBig32(b[8..12]));
            DecodeBody(b + tail, remaining, r) == DecodeBody(tail, remaining - 12, Noted(r, kind, a))
  {
    hide BigValue, Masked;
    Read16(b[..2]);
    var v := b[4..] + tail;
    assert b + tail == b[..2] + [0, 8] + v;
    assert b[4] == b[2..6][2] && b[5] == b[2..6][3];
    assert v[..2] == [0, 1] && v[2..4] == b[6..8] && v[4..8] == b[8..12] && v[8..] == tail;
    TakeParts(b[..2], [0, 8], v, remaining, r);
  }

  /** The twelve bytes of an XOR-MAPPED-ADDRESS: bit for bit, the port kept is the
      one on the wire where the cookie's top half has a 0 and its complement where it
      has a 1, and so is the host by the whole cookie. */
  lemma XorMappedBits(b: seq<byte>, tail: seq<byte>, r: Response)
    requires |b| == 12 && b[..6] == [0x00, 0x20, 0x00, 0x08, 0x00, 0x01]
    ensures var done := DecodeBody(b + tail, 12, r);
            && done.Done? && done.rest == tail
            && done.response.xorMapped.Some? && done.response == r.(xorMapped := done.response.xorMapped)
            && var a := done.response.xorMapped.value;
               && (forall i: nat :: Bit(a.port, i) <==> Bit(BigValue(b[6..8]), i) != Bit(0x2112, i))
               && (forall i: nat :: Bit(a.host, i) <==> Bit(BigValue(b[8..12]), i) != Bit(0x2112A442, i))
  {
    hide BigValue, FromBig16, FromBig32, Xor, Bit, DecodeBody;
    KindOf(b, 0x00, 0x20);
    assert b[2..6] == b[..6][2..] == [0, 8, 0, 1];
    TakesAddress(b, 0x0020, tail, 12, r);
    Read16(b[6..8]);
    Read32(b[8..12]);
    NothingLeft(tail, Noted(r, 0x0020, Address(FromBig16(b[6..8]), FromBig32(b[8..12]))));
    XorBits(BigValue(b[6..8]), 0x2112);
    XorBits(BigValue(b[8..12]), 0x2112A442);
    var a := DecodeBody(b + tail, 12, r).response.xorMapped.value;
    assert a.port == Xor(BigValue(b[6..8]), 0x2112);
    assert a.host == Xor(BigValue(b[8..12]), 0x2112A442);
  }

  lemma NothingLeft(tail: seq<byte>, r: Response)
    ensures DecodeBody(tail, 0, r) == Done(r, tail)
  {
  }

  lemma KindOf(b: seq<byte>, hi: byte, lo: byte)
    requires |b| >= 2 && b[0] == hi && b[1] == lo
    ensures BigValue(b[..2]) == 0x100 * hi + lo
  {
    BigNext([], hi);
    BigNext([] + [hi], lo);
    assert b[..2] == [] + [hi] + [lo];
  }

  predicate IsAt(o: Option<Address>, port: nat, host: nat)
  {
    o.Some? && o.value.port == port && o.value.host == host
  }

  /** What any other attribute of eight bytes starting 00 01 does: types 0001, 8023,
      802B and 802C set one field to the address as it is on the wire, and the rest do nothing. */
  lemma AttributeEffect(b: seq<byte>, tail: seq<byte>, r: Response)
    requires |b| == 12 && b[2..6] == [0, 8, 0, 1] && BigValue(b[..2]) != 0x0009 && BigValue(b[..2]) != 0x0020
    ensures var kind, port, host := BigValue(b[..2]), BigValue(b[6..8]), BigValue(b[8..12]);
            var done := DecodeBody(b + tail, 12, r);
            && done.Done? && done.rest == tail
            && var t := done.response;
               && (kind == 0x0001 ==> t == r.(mapped := t.mapped) && IsAt(t.mapped, port, host))
               && (kind in [0x8023, 0x802C] ==> t == r.(alternate := t.alternate) && IsAt(t.alternate, port, host))
               && (kind == 0x802B ==> t == r.(origin := t.origin) && IsAt(t.origin, port, host))
               && (kind !in [0x0001, 0x8023, 0x802B, 0x802C] ==> t == r)
  {
    hide BigValue, LittleValue, FromBig16, FromLittle16, FromBig32, FromLittle32, DecodeBody, Masked;
    Read16(b[..2]);
    Read16(b[6..8]);
    Read32(b[8..12]);
    var kind: uint16 := BigValue(b[..2]);
    if kind in [0x0001, 0x8023, 0x802B, 0x802C] {
      var a := Address(FromBig16(b[6..8]), FromBig32(b[8..12]));
      TakesAddress(b, kind, tail, 12, r);
      NothingLeft(tail, Noted(r, kind, a));
    } else {
      assert b[2] == b[2..6][0] && b[3] == b[2..6][1];
      assert b[..4][..2] == b[..2] && b[..4][2..] == [0, 8] && b + tail == b[..4] + (b[4..] + tail);
      KindOf([0, 8], 0, 8);
      assert [0, 8][..2] == [0, 8];
      TakesOther(b[..4], b[4..], tail, 12, r);
      NothingLeft(tail, r);
    }
  }

  // ----- error codes and foreign addresses

  /** On any bytes the error flag is raised if and only if the loop met an ERROR-CODE. */
  lemma {:induction false} ErrorFlagIff(b: seq<byte>, remaining: int, r: Response)
    requires DecodeBody(b, remaining, r).Done?
    ensures DecodeBody(b, remaining, r).response.hasErrorCode <==>
            r.hasErrorCode || exists t :: t in Turns(b, remaining, r) && t.kind == 0x0009
    decreases |b|
  {
    hide Take, DecodeAddress;
    if remaining > 0 {
      var kind, length := FromBig16(b[..2]), FromBig16(b[2..4]);
      var step := Take(kind, length, b[4..], r);
      TakeFlag(kind, length, b[4..], r);
      hide FromBig16, Take, DecodeAddress;
      ErrorFlagIff(step.rest, remaining - length - 4, step.response);
      var t, more := Turn(|b|, remaining, kind, length), Turns(step.rest, remaining - length - 4, step.response);
      assert Turns(b, remaining, r) == [t] + more;
      assert forall u :: u in [t] + more <==> u == t || u in more;
    }
  }

  lemma TakeFlag(kind: uint16, length: uint16, v: seq<byte>, r: Response)
    requires Take(kind, length, v, r).Taken?
    ensures Take(kind, length, v, r).response.hasErrorCode <==> r.hasErrorCode || kind == 0x0009
  {
  }

  lemma {:induction false} AfterAttributes(attributes: seq<Attribute>, rest: seq<byte>, n: nat, r: Response)
    requires forall i :: 0 <= i < |attributes| ==> WellFormed(attributes[i])
    ensures DecodeBody(BodyBytes(attributes) + rest, |BodyBytes(attributes)| + n, r) ==
            DecodeBody(rest, n, Summary(attributes, r))
    decreases attributes
  {
    hide DecodeBody, WellFormed;
    if attributes == [] {
      assert [] + rest == rest;
    } else {
      var a, more := attributes[0], attributes[1..];
      assert BodyBytes(attributes) + rest == AttributeBytes(a) + (BodyBytes(more) + rest);
      OneAttribute(a, BodyBytes(more) + rest, |BodyBytes(attributes)| + n, r);
      AfterAttributes(more, rest, n, Kept(r, a));
    }
  }

  /** An address of another family than 1 rejects the body, whatever came before and after. */
  lemma ForeignFamilyRejects(attributes: seq<Attribute>, kind: uint16, v: seq<byte>, tail: seq<byte>, r: Response)
    requires forall i :: 0 <= i < |attributes| ==> WellFormed(attributes[i])
    requires IsAddress(kind) && 2 <= |v| < 0x1_0000 && BigValue(v[..2]) != 1
    ensures var n := |BodyBytes(attributes)|;
            DecodeBody(BodyBytes(attributes) + (Wire(kind, v) + tail), n + 4 + |v|, r) == Rejected
  {
    hide BodyBytes, Summary, WellFormed, DecodeBody, Wire;
    AfterAttributes(attributes, Wire(kind, v) + tail, 4 + |v|, r);
    ForeignFirst(kind, v, tail, Summary(attributes, r));
  }

  lemma ForeignFirst(kind: uint16, v: seq<byte>, tail: seq<byte>, r: Response)
    requires IsAddress(kind) && 2 <= |v| < 0x1_0000 && BigValue(v[..2]) != 1
    ensures DecodeBody(Wire(kind, v) + tail, 4 + |v|, r) == Rejected
  {
    hide BigValue, LittleValue, FromBig16, FromLittle16, Big16, Little16, Noted, DecodeAddress;
    Integers16(kind);
    Integers16(|v|);
    Foreign(v, tail);
    assert Wire(kind, v) + tail == Big16(kind) + Big16(|v|) + (v + tail);
    RejectParts(Big16(kind), Big16(|v|), v + tail, 4 + |v|, r);
  }

  lemma Foreign(v: seq<byte>, tail: seq<byte>)
    requires |v| >= 2 && BigValue(v[..2]) != 1
    ensures DecodeAddress(v + tail) == Unsupported
  {
    Read16(v[..2]);
    assert (v + tail)[..2] == v[..2];
  }

  lemma RejectParts(p: seq<byte>, q: seq<byte>, v: seq<byte>, remaining: int, r: Response)
    requires |p| == 2 && |q| == 2 && remaining > 0 && Take(FromBig16(p), FromBig16(q), v, r).Foreign?
    ensures DecodeBody(p + q + v, remaining, r) == Rejected
  {
    var b := p + q + v;
    assert b[..2] == p && b[2..4] == q && b[4..] == v;
  }

  // ----- a message from the library's own tests (test/functional/test_stun.c)

  lemma TakesOther(b: seq<byte>, v: seq<byte>, tail: seq<byte>, remaining: nat, r: Response)
    requires |b| == 4 && |v| == BigValue(b[2..]) && remaining > 0
    requires BigValue(b[..2]) < 0x1_0000 && !IsAddress(BigValue(b[..2])) && BigValue(b[..2]) != 0x0009
    ensures DecodeBody(b + (v + tail), remaining, r) == DecodeBody(tail, remaining - 4 - |v|, r)
  {
    hide BigValue, LittleValue, FromLittle16, FromBig16;
    Read16(b[..2]);
    Read16(b[2..]);
    assert b + (v + tail) == b[..2] + b[2..] + (v + tail);
    assert (v + tail)[|v|..] == tail;
    TakeParts(b[..2], b[2..], v + tail, remaining, r);
  }

  lemma OtherHead(b: seq<byte>, hi: byte, lo: byte, n: byte)
    requires b == [hi, lo, 0, n]
    ensures BigValue(b[..2]) == 0x100 * hi + lo && BigValue(b[2..]) == n
  {
    KindOf(b, hi, lo);
    KindOf(b[2..], 0, n);
    assert b[2..][..2] == b[2..];
  }

  const MAPPED: seq<byte> := [0x00, 0x01, 0x00, 0x08, 0x00, 0x01, 0xf5, 0x8a, 0xbc, 0x52, 0xc0, 0x06]
  const SOURCE: seq<byte> := [0x00, 0x01, 0x0d, 0x96, 0xd0, 0x6e, 0x84, 0x84]
  const CHANGED: seq<byte> := [0x00, 0x01, 0x0d, 0x97, 0xd0, 0x6e, 0x84, 0x85]
  const OLD_XOR: seq<byte> := [0x00, 0x01, 0xd4, 0x98, 0x9d, 0x40, 0x64, 0x44]
  const SERVER: seq<byte> :=
    [0x56, 0x6f, 0x76, 0x69, 0x64, 0x61, 0x2e, 0x6f, 0x72, 0x67, 0x20, 0x30, 0x2e, 0x39, 0x36, 0x00]

  const BODY: seq<byte> :=
    MAPPED + ([0x00, 0x04, 0x00, 0x08] + (SOURCE + ([0x00, 0x05, 0x00, 0x08] + (CHANGED +
    ([0x80, 0x20, 0x00, 0x08] + (OLD_XOR + ([0x80, 0x22, 0x00, 0x10] + (SERVER + []))))))))

  lemma KnownMapped()
    ensures Noted(EMPTY, 0x0001, Address(FromBig16([0xf5, 0x8a]), FromBig32([0xbc, 0x52, 0xc0, 0x06]))) ==
            EMPTY.(mapped := Some(Address(62858, 0xBC52C006)))
  {
  }

  /** The 68 bytes yield the mapped address 188.82.192.6, port 62858, and nothing else. */
  lemma KnownBody()
    ensures |BODY| == 68
    ensures DecodeBody(BODY, 68, EMPTY) == Done(EMPTY.(mapped := Some(Address(62858, 0xBC52C006))), [])
  {
    KnownMapped();
    hide DecodeBody, BigValue, FromBig16, FromBig32, Noted;
    var r := EMPTY.(mapped := Some(Address(62858, 0xBC52C006)));
    KindOf(MAPPED, 0x00, 0x01);
    TakesAddress(MAPPED, 0x0001, BODY[12..], 68, EMPTY);
    assert MAPPED[6..8] == [0xf5, 0x8a] && MAPPED[8..12] == [0xbc, 0x52, 0xc0, 0x06];
    OtherHead([0x80, 0x22, 0x00, 0x10], 0x80, 0x22, 0x10);
    OtherHead([0x80, 0x20, 0x00, 0x08], 0x80, 0x20, 0x08);
    OtherHead([0x00, 0x05, 0x00, 0x08], 0x00, 0x05, 0x08);
    OtherHead([0x00, 0x04, 0x00, 0x08], 0x00, 0x04, 0x08);
    TakesOther([0x80, 0x22, 0x00, 0x10], SERVER, [], 20, r);
    TakesOther([0x80, 0x20, 0x00, 0x08], OLD_XOR, [0x80, 0x22, 0x00, 0x10] + (SERVER + []), 32, r);
    var three := [0x80, 0x20, 0x00, 0x08] + (OLD_XOR + ([0x80, 0x22, 0x00, 0x10] + (SERVER + [])));
    TakesOther([0x00, 0x05, 0x00, 0x08], CHANGED, three, 44, r);
    TakesOther([0x00, 0x04, 0x00, 0x08], SOURCE, [0x00, 0x05, 0x00, 0x08] + (CHANGED + three), 56, r);
    NothingLeft([], r);
  }

  lemma TwoBytes(b: seq<byte>, hi: byte, lo: byte)
    requires |b| == 2 && BigValue(b) == 0x100 * hi + lo
    ensures b == [hi, lo]
  {
    KindOf(b, b[0], b[1]);
    assert b[..2] == b;
  }

  lemma CookieBytes()
    ensures Big32(MAGIC_COOKIE) == [0x21, 0x12, 0xA4, 0x42]
  {
    Bytes(MAGIC_COOKIE);
  }

  const ID: seq<byte> := [0x00, 0x00, 0x00, 0x00, 0xe5, 0x79, 0xf9, 0x76, 0x4d, 0xb8, 0x39, 0x5e]
  const FRONT: seq<byte> := [0x01, 0x01, 0x00, 0x44, 0x21, 0x12, 0xa4, 0x42]
  const ID_ON_WIRE: seq<byte> := [0x5e, 0x39, 0xb8, 0x4d, 0x76, 0xf9, 0x79, 0xe5, 0x00, 0x00, 0x00, 0x00]

  /** The header of the same message, packed and read: a success response to a binding request. */
  lemma KnownHeader()
    ensures HeaderBytes(Header(WireField(1, 2), 68, ID)) == FRONT + ID_ON_WIRE
    ensures DecodeHeader(FRONT + ID_ON_WIRE) == Some(Header(0x0101, 68, ID))
    ensures WireMethod(0x0101) == 1 && WireClass(0x0101) == 2
  {
    KnownField();
    KnownFront();
    hide FrontBytes, DecodeHeader, WireField, WireMethod, WireClass;
    assert Reversed(ID) == ID_ON_WIRE;
    HeaderRoundTrip(Header(0x0101, 68, ID), []);
    assert (FRONT + ID_ON_WIRE) + [] == FRONT + ID_ON_WIRE;
  }

  lemma KnownFront()
    ensures FrontBytes(0x0101, 68) == FRONT
  {
    CookieBytes();
    hide BigValue, Big16, Big32;
    Written(0x0101);
    Written(68);
    TwoBytes(Big16(0x0101), 0x01, 0x01);
    TwoBytes(Big16(68), 0x00, 0x44);
  }

  lemma KnownField()
    ensures WireField(1, 2) == 0x0101 && WireMethod(0x0101) == 1 && WireClass(0x0101) == 2
  {
    FieldRoundTrip(1, 2);
  }
}
