/** STUN messages: the header, whose type field interleaves method and class, and
    the type-length-value body of a binding response. */
module StunProtocol {
  import opened AckBits
  import opened Basics
  import opened MachineInts
  import opened NetAddr
  import opened Bitstream

  const MAGIC_COOKIE: uint32 := 0x2112A442
  const COOKIE_TOP: uint16 := 0x2112
  const ID_LENGTH: nat := 12
  const BINDING: bv16 := 0x0001
  const FAMILY_IPV4: uint16 := 0x01
  const MAPPED_ADDRESS: uint16 := 0x0001
  const ERROR_CODE: uint16 := 0x0009
  const XOR_MAPPED_ADDRESS: uint16 := 0x0020
  const ALTERNATE_SERVER: uint16 := 0x8023
  const ORIGIN_SERVER: uint16 := 0x802b
  const OTHER_ADDRESS: uint16 := 0x802c

  // ----- the header (section 6 of RFC 5389)

  function TypeField(kind: bv16, cls: bv16): bv16
  {
    ((kind & 0x0f80) << 2) | ((kind & 0x0070) << 1) | (kind & 0x000f) | ((cls & 0x02) << 7) | ((cls & 0x01) << 4)
  }

  function MethodOf(field: bv16): bv16
  {
    (field & 0x000f) | ((field & 0x00e0) >> 1) | ((field & 0x3E00) >> 2)
  }

  function ClassOf(field: bv16): bv16
  {
    if field & 0x0110 == 0x0000 then 0
    else if field & 0x0110 == 0x0010 then 1
    else if field & 0x0110 == 0x0100 then 2
    else 3
  }

  /** Method and class come back from the field, whose two top bits are zero. */
  lemma TypeFieldRoundTrip(kind: bv16, cls: bv16)
    requires kind < 0x1000 && cls < 4
    ensures MethodOf(TypeField(kind, cls)) == kind && ClassOf(TypeField(kind, cls)) == cls
    ensures TypeField(kind, cls) & 0xC000 == 0
  {
    assert kind & 0x0fff == kind && cls & 0x3 == cls;
  }

  /** And every field with zero top bits is the field of its own method and class. */
  lemma TypeFieldOnto(field: bv16)
    requires field & 0xC000 == 0
    ensures MethodOf(field) < 0x1000 && ClassOf(field) < 4 && TypeField(MethodOf(field), ClassOf(field)) == field
  {
  }

  /** A header as it is on the wire, method and class still in their field. */
  datatype Header = Header(field: uint16, length: uint16, id: seq<byte>)

  function WireField(kind: bv16, cls: bv16): uint16
  {
    TypeField(kind, cls) as nat
  }

  function WireMethod(field: uint16): bv16
  {
    MethodOf(field as bv16)
  }

  function WireClass(field: uint16): bv16
  {
    ClassOf(field as bv16)
  }

  lemma FieldRoundTrip(kind: bv16, cls: bv16)
    requires kind < 0x1000 && cls < 4
    ensures WireMethod(WireField(kind, cls)) == kind && WireClass(WireField(kind, cls)) == cls
  {
    var f := TypeField(kind, cls);
    assert (f as nat) as bv16 == f;
    TypeFieldRoundTrip(kind, cls);
  }

  function HeaderChunks(h: Header): seq<seq<byte>>
  {
    [Big16(h.field), Big16(h.length), Big32(MAGIC_COOKIE), Reversed(h.id)]
  }

  function FrontBytes(field: uint16, length: uint16): (b: seq<byte>)
    ensures |b| == 8
  {
    Big16(field) + Big16(length) + Big32(MAGIC_COOKIE)
  }

  function HeaderBytes(h: Header): (b: seq<byte>)
    ensures |b| == 8 + |h.id|
  {
    FrontBytes(h.field, h.length) + Reversed(h.id)
  }

  /** Only the cookie is checked; the top bits of the type field are ignored. */
  function DecodeHeader(b: seq<byte>): Option<Header>
    requires |b| >= 20
  {
    if FromBig32(b[4..8]) == MAGIC_COOKIE
    then Some(Header(FromBig16(b[..2]), FromBig16(b[2..4]), Reversed(b[8..20])))
    else None
  }

  lemma FrontRoundTrip(field: uint16, length: uint16, rest: seq<byte>)
    ensures var b := FrontBytes(field, length) + rest;
            && FromBig16(b[..2]) == field && FromBig16(b[2..4]) == length
            && FromBig32(b[4..8]) == MAGIC_COOKIE && b[8..] == rest
  {
    var b := FrontBytes(field, length) + rest;
    assert b[..2] == Big16(field) && b[2..4] == Big16(length) && b[4..8] == Big32(MAGIC_COOKIE);
    Integers16(field);
    Integers16(length);
    Integers32(MAGIC_COOKIE);
  }

  /** The field, the length and the id come back from the header. */
  lemma {:induction false} HeaderRoundTrip(h: Header, tail: seq<byte>)
    requires |h.id| == ID_LENGTH
    ensures DecodeHeader(HeaderBytes(h) + tail) == Some(h)
  {
    var b := HeaderBytes(h) + tail;
    assert b == FrontBytes(h.field, h.length) + (Reversed(h.id) + tail);
    FrontRoundTrip(h.field, h.length, Reversed(h.id) + tail);
    assert b[8..20] == Reversed(h.id);
    ReversedTwice(h.id);
  }

  /** For every method, class, length and id, what is packed into 20 bytes or
      more is read back as that method, class, length and id. */
  lemma HeaderCarriesAll(kind: bv16, cls: bv16, length: uint16, id: seq<byte>, bound: nat, tail: seq<byte>)
    requires kind < 0x1000 && cls < 4 && |id| == ID_LENGTH && bound >= 20
    ensures var packed := AppendAll([], HeaderChunks(Header(WireField(kind, cls), length, id)), bound);
            |packed + tail| >= 20 && (
              var h := DecodeHeader(packed + tail);
              && h.Some? && WireMethod(h.value.field) == kind && WireClass(h.value.field) == cls
              && h.value.length == length && h.value.id == id)
  {
    var h := Header(WireField(kind, cls), length, id);
    hide WireField, WireMethod, WireClass, HeaderChunks, DecodeHeader;
    HeaderPackedIffFits([], h, bound);
    assert [] + HeaderBytes(h) == HeaderBytes(h);
    HeaderRoundTrip(h, tail);
    FieldRoundTrip(kind, cls);
  }

  /** The header is packed whole if and only if 20 bytes remain. */
  lemma HeaderPackedIffFits(packed: seq<byte>, h: Header, bound: nat)
    requires |packed| <= bound && |h.id| == ID_LENGTH
    ensures AppendAll(packed, HeaderChunks(h), bound) == packed + HeaderBytes(h) <==> |packed| + 20 <= bound
  {
    var c := HeaderChunks(h);
    FlatThree(c[1..]);
    assert Flat(c) == c[0] + Flat(c[1..]);
    assert Flat(c) == HeaderBytes(h);
    PackedWholeIffFits(packed, c, bound);
  }

  method PackHeader(stream: Bitstream, kind: bv16, cls: bv16, length: uint16, id: seq<byte>)
    requires stream.Valid()
    modifies stream`offset, stream.data
    ensures stream.Valid()
    ensures var h := Header(WireField(kind, cls), length, id);
            stream.Packed() == AppendAll(old(stream.Packed()), HeaderChunks(h), stream.bound)
  {
    var field := WireField(kind, cls);
    ghost var c := HeaderChunks(Header(field, length, id));
    ThreeChunks(Append(stream.Packed(), c[0], stream.bound), c[1..], stream.bound);
    stream.WriteUint16(field);
    stream.WriteUint16(length);
    stream.WriteUint32(MAGIC_COOKIE);
    var written := stream.WriteBytes(id);
  }

  method UnpackHeader(stream: Bitstream) returns (h: Option<Header>, kind: bv16, cls: bv16)
    requires stream.Valid() && |stream.Rest()| >= 20
    modifies stream`offset
    ensures stream.Valid() && h == DecodeHeader(old(stream.Rest()))
    ensures h.Some? ==> kind == WireMethod(h.value.field) && cls == WireClass(h.value.field)
    ensures h.Some? ==> stream.Rest() == old(stream.Rest())[20..]
  {
    ghost var b := stream.Rest();
    var field := stream.ReadUint16();
    kind, cls := WireMethod(field), WireClass(field);
    var length := stream.ReadUint16();
    assert stream.Rest() == b[4..] && b[2..][..2] == b[2..4];
    var cookie := stream.ReadUint32();
    assert stream.Rest() == b[8..] && b[4..][..4] == b[4..8];
    if cookie != MAGIC_COOKIE {
      return None, kind, cls;
    }
    var id := stream.ReadBytes(ID_LENGTH);
    assert b[8..][..12] == b[8..20] && stream.Rest() == b[20..];
    h := Some(Header(field, length, id));
  }

  // ----- attributes (section 15 of RFC 5389)

  /** Exclusive or, bit by bit. */
  function Xor(x: nat, y: nat): nat
  {
    if x == 0 then y else (x + y) % 2 + 2 * Xor(x / 2, y / 2)
  }

  lemma {:induction false} XorBelow(x: nat, y: nat, n: nat)
    requires x < Pow2(n) && y < Pow2(n)
    ensures Xor(x, y) < Pow2(n)
  {
    if x != 0 {
      XorBelow(x / 2, y / 2, n - 1);
    }
  }

  lemma {:induction false} XorStep(x: nat, y: nat)
    ensures Xor(x, y) % 2 == (x + y) % 2 && Xor(x, y) / 2 == Xor(x / 2, y / 2)
  {
    if x == 0 {
      assert Xor(x, y) == y && x / 2 == 0;
    } else {
      LowBit((x + y) % 2, Xor(x / 2, y / 2));
    }
  }

  lemma LowBit(b: nat, r: nat)
    requires b < 2
    ensures (b + 2 * r) % 2 == b && (b + 2 * r) / 2 == r
  {
  }

  /** Masking twice with the same word undoes it. */
  lemma {:induction false} XorTwice(x: nat, y: nat)
    ensures Xor(Xor(x, y), y) == x
    decreases x + y
  {
    if x + y > 0 {
      var z := Xor(x, y);
      XorStep(x, y);
      XorStep(z, y);
      XorTwice(x / 2, y / 2);
      Parity(x, y, z, Xor(z, y));
    }
  }

  lemma Parity(x: nat, y: nat, z: nat, w: nat)
    requires z % 2 == (x + y) % 2 && w % 2 == (z + y) % 2 && w / 2 == x / 2
    ensures w == x
  {
  }

  /** The address XORed with the cookie, its port with the cookie's top half. */
  function Masked(a: Address): Address
  {
    XorFits(a);
    Address(Xor(a.port, COOKIE_TOP), Xor(a.host, MAGIC_COOKIE))
  }

  lemma XorFits(a: Address)
    ensures Xor(a.port, COOKIE_TOP) < 0x1_0000 && Xor(a.host, MAGIC_COOKIE) < 0x1_0000_0000
  {
    WordSizes();
    XorBelow(a.port, COOKIE_TOP, 16);
    XorBelow(a.host, MAGIC_COOKIE, 32);
  }

  lemma MaskedTwice(a: Address)
    ensures Masked(Masked(a)) == a
  {
    XorTwice(a.port, COOKIE_TOP);
    XorTwice(a.host, MAGIC_COOKIE);
  }

  /** An attribute as it is on the wire. */
  datatype Attribute = Located(kind: uint16, address: Address) | Other(kind: uint16, body: seq<byte>)

  predicate IsAddress(kind: uint16)
  {
    kind in [MAPPED_ADDRESS, XOR_MAPPED_ADDRESS, ALTERNATE_SERVER, OTHER_ADDRESS, ORIGIN_SERVER]
  }

  predicate WellFormed(a: Attribute)
  {
    match a
    case Located(kind, _) => IsAddress(kind)
    case Other(kind, body) => !IsAddress(kind) && kind != ERROR_CODE && |body| < 0x1_0000
  }

  function AddressBytes(a: Address): (b: seq<byte>)
    ensures |b| == 8
  {
    Big16(FAMILY_IPV4) + Big16(a.port) + Big32(a.host)
  }

  function Value(a: Attribute): seq<byte>
  {
    if a.Other? then a.body else AddressBytes(a.address)
  }

  /** Type, length and value, with no padding after the value. */
  function Wire(kind: uint16, v: seq<byte>): (b: seq<byte>)
    ensures |b| == 4 + |v|
  {
    Big16(kind) + Big16(|v|) + v
  }

  function AttributeBytes(a: Attribute): (b: seq<byte>)
    ensures |b| == 4 + |Value(a)|
  {
    Wire(a.kind, Value(a))
  }

  function BodyBytes(attributes: seq<Attribute>): seq<byte>
  {
    if attributes == [] then [] else AttributeBytes(attributes[0]) + BodyBytes(attributes[1..])
  }

  /** The address an attribute stands for. */
  function Meant(a: Attribute): Address
    requires a.Located?
  {
    if a.kind == XOR_MAPPED_ADDRESS then Masked(a.address) else a.address
  }

  /** A sender that masks the address it means gets that address across. */
  lemma XorUndone(a: Address)
    ensures Meant(Located(XOR_MAPPED_ADDRESS, Masked(a))) == a
  {
    MaskedTwice(a);
  }

  datatype Response = Response(origin: Option<Address>, mapped: Option<Address>,
                               xorMapped: Option<Address>, alternate: Option<Address>, hasErrorCode: bool)

  const EMPTY: Response := Response(None, None, None, None, false)

  /** A response with one more address. ALTERNATE-SERVER and OTHER-ADDRESS share a field. */
  function Noted(r: Response, kind: uint16, a: Address): Response
  {
    if kind == MAPPED_ADDRESS then r.(mapped := Some(a))
    else if kind == XOR_MAPPED_ADDRESS then r.(xorMapped := Some(Masked(a)))
    else if kind == ORIGIN_SERVER then r.(origin := Some(a))
    else r.(alternate := Some(a))
  }

  // ----- the body, on any bytes

  /** Stuck: the next read would pass the end. Rejected: an address that is not IPv4. */
  datatype Outcome = Stuck | Rejected | Done(response: Response, rest: seq<byte>)

  datatype AddressOutcome = NoBytes | Unsupported | Found(address: Address)

  function DecodeAddress(b: seq<byte>): (r: AddressOutcome)
    ensures r.Found? ==> |b| >= 8
  {
    if |b| < 2 then NoBytes
    else if FromBig16(b[..2]) != FAMILY_IPV4 then Unsupported
    else if |b| < 8 then NoBytes
    else Found(Address(FromBig16(b[2..4]), FromBig32(b[4..8])))
  }

  /** Where the next attribute starts in v, after a value of the given kind and length. */
  function Skip(v: seq<byte>, length: uint16): seq<byte>
  {
    if length <= |v| then v[length..] else v
  }

  datatype Step = Short | Foreign | Taken(response: Response, rest: seq<byte>)

  /** The value of one attribute taken from v. An address takes eight bytes and
      an error code four, whatever the length says. */
  function Take(kind: uint16, length: uint16, v: seq<byte>, r: Response): (step: Step)
    ensures step.Taken? ==> |step.rest| <= |v|
  {
    if kind == ERROR_CODE then
      if |v| < 4 then Short else Taken(r.(hasErrorCode := true), v[4..])
    else if IsAddress(kind) then
      match DecodeAddress(v)
      case NoBytes => Short
      case Unsupported => Foreign
      case Found(a) => Taken(Noted(r, kind, a), v[8..])
    else Taken(r, Skip(v, length))
  }

  function DecodeBody(b: seq<byte>, remaining: int, r: Response): Outcome
    decreases |b|
  {
    if remaining <= 0 then Done(r, b)
    else if |b| < 4 then Stuck
    else
      var length := FromBig16(b[2..4]);
      match Take(FromBig16(b[..2]), length, b[4..], r)
      case Short => Stuck
      case Foreign => Rejected
      case Taken(more, rest) => DecodeBody(rest, remaining - length - 4, more)
  }

  method UnpackAddress(stream: Bitstream) returns (a: Option<Address>)
    requires stream.Valid() && DecodeAddress(stream.Rest()) != NoBytes
    modifies stream`offset
    ensures stream.Valid()
    ensures match DecodeAddress(old(stream.Rest()))
            case Found(address) => a == Some(address) && stream.Rest() == old(stream.Rest())[8..]
            case _ => a == None
  {
    ghost var b := stream.Rest();
    var family := stream.ReadUint16();
    if family != FAMILY_IPV4 {
      return None;
    }
    assert stream.Rest() == b[2..] && b[2..][..2] == b[2..4];
    var port := stream.ReadUint16();
    assert stream.Rest() == b[4..] && b[4..][..4] == b[4..8];
    var host := stream.ReadUint32();
    assert stream.Rest() == b[8..];
    a := Some(Address(port, host));
  }

  method SkipBytes(stream: Bitstream, length: uint16)
    requires stream.Valid()
    modifies stream`offset
    ensures stream.Valid() && stream.Rest() == Skip(old(stream.Rest()), length)
  {
    if length <= stream.bound - stream.offset {
      stream.offset := stream.offset + length;
    }
  }

  method UnpackAttribute(stream: Bitstream, kind: uint16, length: uint16, r: Response)
    returns (valid: bool, more: Response)
    requires stream.Valid() && Take(kind, length, stream.Rest(), r) != Short
    modifies stream`offset
    ensures stream.Valid()
    ensures match Take(kind, length, old(stream.Rest()), r)
            case Taken(response, rest) => valid && more == response && stream.Rest() == rest
            case _ => !valid
  {
    if kind == ERROR_CODE {
      var code := stream.ReadUint32();
      return true, r.(hasErrorCode := true);
    } else if IsAddress(kind) {
      var a := UnpackAddress(stream);
      if a.None? {
        return false, r;
      }
      return true, Noted(r, kind, a.value);
    } else {
      SkipBytes(stream, length);
      return true, r;
    }
  }

  method UnpackBody(stream: Bitstream, length: uint16) returns (valid: bool, response: Response)
    requires stream.Valid() && DecodeBody(stream.Rest(), length, EMPTY) != Stuck
    modifies stream`offset
    ensures stream.Valid()
    ensures match DecodeBody(old(stream.Rest()), length, EMPTY)
            case Done(r, rest) => valid && response == r && stream.Rest() == rest
            case _ => !valid
  {
    hide Noted, DecodeAddress, Take;
    valid, response := true, EMPTY;
    ghost var outcome := DecodeBody(stream.Rest(), length, EMPTY);
    var remaining: int := length;
    while remaining > 0
      invariant stream.Valid() && valid && DecodeBody(stream.Rest(), remaining, response) == outcome
    {
      ghost var b := stream.Rest();
      var kind := stream.ReadUint16();
      var attributeLength := stream.ReadUint16();
      assert stream.Rest() == b[4..] && b[2..][..2] == b[2..4];
      valid, response := UnpackAttribute(stream, kind, attributeLength, response);
      if !valid {
        return;
      }
      remaining := remaining - attributeLength - 4;
    }
  }

  // ----- round trip

  /** The attributes a response keeps, in order of arrival. */
  function Summary(attributes: seq<Attribute>, r: Response): Response
    decreases attributes
  {
    if attributes == [] then r else Summary(attributes[1..], Kept(r, attributes[0]))
  }

  function Kept(r: Response, a: Attribute): Response
  {
    if a.Other? then r else Noted(r, a.kind, a.address)
  }

  lemma AddressOf(p: seq<byte>, q: seq<byte>, r: seq<byte>, tail: seq<byte>)
    requires |p| == 2 && |q| == 2 && |r| == 4 && FromBig16(p) == FAMILY_IPV4
    ensures var b := p + q + r + tail;
            DecodeAddress(b) == Found(Address(FromBig16(q), FromBig32(r))) && b[8..] == tail
  {
    var b := p + q + r + tail;
    assert b[..2] == p && b[2..4] == q && b[4..8] == r;
  }

  lemma AddressRoundTrip(a: Address, tail: seq<byte>)
    ensures DecodeAddress(AddressBytes(a) + tail) == Found(a) && (AddressBytes(a) + tail)[8..] == tail
  {
    Integers16(FAMILY_IPV4);
    Integers16(a.port);
    Integers32(a.host);
    AddressOf(Big16(FAMILY_IPV4), Big16(a.port), Big32(a.host), tail);
  }

  lemma TakeValue(a: Attribute, tail: seq<byte>, r: Response)
    requires WellFormed(a)
    ensures |Value(a)| < 0x1_0000
    ensures Take(a.kind, |Value(a)|, Value(a) + tail, r) == Taken(Kept(r, a), tail)
  {
    hide AddressBytes, DecodeAddress, Masked;
    if a.Located? {
      AddressRoundTrip(a.address, tail);
    } else {
      assert Skip(a.body + tail, |a.body|) == tail;
    }
  }

  lemma TakeParts(p: seq<byte>, q: seq<byte>, v: seq<byte>, remaining: int, r: Response)
    requires |p| == 2 && |q| == 2 && remaining > 0 && Take(FromBig16(p), FromBig16(q), v, r).Taken?
    ensures var step := Take(FromBig16(p), FromBig16(q), v, r);
            DecodeBody(p + q + v, remaining, r) == DecodeBody(step.rest, remaining - FromBig16(q) - 4, step.response)
  {
    var b := p + q + v;
    assert b[..2] == p && b[2..4] == q && b[4..] == v;
  }

  lemma TakeWire(kind: uint16, v: seq<byte>, tail: seq<byte>, remaining: int, r: Response, more: Response)
    requires |v| < 0x1_0000 && remaining > 0 && Take(kind, |v|, v + tail, r) == Taken(more, tail)
    ensures DecodeBody(Wire(kind, v) + tail, remaining, r) == DecodeBody(tail, remaining - |v| - 4, more)
  {
    hide Big16, FromBig16, Little16, FromLittle16, DecodeAddress, Noted, Skip;
    assert Wire(kind, v) + tail == Big16(kind) + Big16(|v|) + (v + tail);
    Integers16(kind);
    Integers16(|v|);
    TakeParts(Big16(kind), Big16(|v|), v + tail, remaining, r);
  }

  lemma OneAttribute(a: Attribute, tail: seq<byte>, remaining: int, r: Response)
    requires WellFormed(a) && remaining >= 4 + |Value(a)|
    ensures DecodeBody(AttributeBytes(a) + tail, remaining, r) ==
            DecodeBody(tail, remaining - |Value(a)| - 4, Kept(r, a))
  {
    hide Wire, AddressBytes, DecodeAddress, Masked, Skip;
    TakeValue(a, tail, r);
    TakeWire(a.kind, Value(a), tail, remaining, r, Kept(r, a));
  }

  /** From any well-formed body, each attribute is taken in turn, the XOR is
      undone, and reading stops exactly where the body ends. */
  lemma {:induction false} BodyRoundTrip(attributes: seq<Attribute>, tail: seq<byte>, r: Response)
    requires forall i :: 0 <= i < |attributes| ==> WellFormed(attributes[i])
    ensures DecodeBody(BodyBytes(attributes) + tail, |BodyBytes(attributes)|, r) == Done(Summary(attributes, r), tail)
    decreases attributes
  {
    if attributes == [] {
      assert [] + tail == tail;
    } else {
      var a, more := attributes[0], attributes[1..];
      assert BodyBytes(attributes) + tail == AttributeBytes(a) + (BodyBytes(more) + tail);
      OneAttribute(a, BodyBytes(more) + tail, |BodyBytes(attributes)|, r);
      BodyRoundTrip(more, tail, Kept(r, a));
    }
  }

  /** The field of a response that an attribute of the given kind sets. */
  function Slot(kind: uint16, r: Response): Option<Address>
  {
    if kind == MAPPED_ADDRESS then r.mapped
    else if kind == XOR_MAPPED_ADDRESS then r.xorMapped
    else if kind == ORIGIN_SERVER then r.origin
    else r.alternate
  }

  predicate SameSlot(a: Attribute, kind: uint16)
  {
    var shared := [ALTERNATE_SERVER, OTHER_ADDRESS];
    a.Located? && (a.kind == kind || (a.kind in shared && kind in shared))
  }

  lemma KeptInSlot(a: Attribute, kind: uint16, r: Response)
    requires IsAddress(kind) && WellFormed(a)
    ensures Slot(kind, Kept(r, a)) == if SameSlot(a, kind) then Some(Meant(a)) else Slot(kind, r)
    ensures SameSlot(a, kind) ==> a.Located?
  {
    hide Masked;
  }

  /** The last attribute of each kind, at i, is the one kept; with none, where i
      is -1, the field is left alone. */
  lemma {:induction false} LastOfEachKind(attributes: seq<Attribute>, kind: uint16, r: Response, i: int)
    requires IsAddress(kind) && forall j :: 0 <= j < |attributes| ==> WellFormed(attributes[j])
    requires -1 <= i < |attributes| && (i >= 0 ==> SameSlot(attributes[i], kind))
    requires forall j :: i < j < |attributes| ==> !SameSlot(attributes[j], kind)
    ensures Slot(kind, Summary(attributes, r)) == if i < 0 then Slot(kind, r) else Some(Meant(attributes[i]))
    decreases attributes
  {
    hide Masked, Meant, Slot, Kept, WellFormed, IsAddress;
    if attributes != [] {
      var more := attributes[1..];
      assert forall j :: 0 <= j < |more| ==> more[j] == attributes[j + 1];
      KeptInSlot(attributes[0], kind, r);
      LastOfEachKind(more, kind, Kept(r, attributes[0]), if i < 0 then i else i - 1);
    }
  }

  // ----- how far the loop reads

  /** The bytes a value of this kind takes from v, as against the length it declares. */
  function Size(kind: uint16, length: uint16, v: seq<byte>): nat
  {
    if kind == ERROR_CODE then 4 else if IsAddress(kind) then 8 else if length <= |v| then length else 0
  }

  /** Over all turns of the loop, the bytes taken and the bytes declared. */
  function Sizes(b: seq<byte>, remaining: int, r: Response): (s: (nat, nat))
    requires DecodeBody(b, remaining, r).Done?
    decreases |b|
  {
    if remaining <= 0 then (0, 0)
    else
      var kind, length, v := FromBig16(b[..2]), FromBig16(b[2..4]), b[4..];
      var step := Take(kind, length, v, r);
      var more := Sizes(step.rest, remaining - length - 4, step.response);
      (4 + Size(kind, length, v) + more.0, 4 + length + more.1)
  }

  lemma TakeSize(kind: uint16, length: uint16, v: seq<byte>, r: Response)
    requires Take(kind, length, v, r).Taken?
    ensures |Take(kind, length, v, r).rest| + Size(kind, length, v) == |v|
  {
  }

  lemma {:induction false} BytesTaken(b: seq<byte>, remaining: int, r: Response)
    requires DecodeBody(b, remaining, r).Done?
    ensures |DecodeBody(b, remaining, r).rest| + Sizes(b, remaining, r).0 == |b|
    ensures remaining <= Sizes(b, remaining, r).1
    decreases |b|
  {
    if remaining > 0 {
      var kind, length := FromBig16(b[..2]), FromBig16(b[2..4]);
      TakeSize(kind, length, b[4..], r);
      hide FromBig16, Take, Size;
      var step := Take(kind, length, b[4..], r);
      BytesTaken(step.rest, remaining - length - 4, step.response);
    }
  }

  /** What the loop finds at one turn: how many bytes are left, how many of the
      body's length are, and the attribute's header. */
  datatype Turn = Turn(bytes: nat, remaining: int, kind: uint16, length: uint16)

  function Turns(b: seq<byte>, remaining: int, r: Response): (turns: seq<Turn>)
    requires DecodeBody(b, remaining, r).Done?
    ensures turns != [] ==> turns[0].bytes == |b| && turns[0].remaining == remaining
    decreases |b|
  {
    if remaining <= 0 then []
    else
      var kind, length := FromBig16(b[..2]), FromBig16(b[2..4]);
      var step := Take(kind, length, b[4..], r);
      [Turn(|b|, remaining, kind, length)] + Turns(step.rest, remaining - length - 4, step.response)
  }

  /** At every turn, and at the end, as many bytes have been read as have been counted off. */
  predicate InStep(b: seq<byte>, remaining: int, r: Response)
    requires DecodeBody(b, remaining, r).Done?
  {
    var turns := Turns(b, remaining, r);
    && (forall i :: 0 <= i < |turns| ==> |b| - turns[i].bytes == remaining - turns[i].remaining)
    && |b| - |DecodeBody(b, remaining, r).rest| == Sizes(b, remaining, r).1
  }

  /** An address declares eight bytes, an error code four, and any other value no
      more than there are. */
  predicate TrueLength(t: Turn)
  {
    if t.kind == ERROR_CODE then t.length == 4
    else if IsAddress(t.kind) then t.length == 8
    else 4 + t.length <= t.bytes
  }

  predicate AllTrue(turns: seq<Turn>)
  {
    forall i :: 0 <= i < |turns| ==> TrueLength(turns[i])
  }

  /** The loop stays in step with the lengths it reads if and only if every
      attribute it meets declares what its value takes. */
  lemma {:induction false} InStepIff(b: seq<byte>, remaining: int, r: Response)
    requires DecodeBody(b, remaining, r).Done?
    ensures InStep(b, remaining, r) <==> AllTrue(Turns(b, remaining, r))
    decreases |b|
  {
    hide DecodeAddress, FromBig16;
    if remaining > 0 {
      var kind, length := FromBig16(b[..2]), FromBig16(b[2..4]);
      TakeSize(kind, length, b[4..], r);
      TrueSize(kind, length, b, remaining);
      hide FromBig16, Take, Size, Sizes, TrueLength, InStep, AllTrue;
      var step := Take(kind, length, b[4..], r);
      InStepIff(step.rest, remaining - length - 4, step.response);
      InStepNext(b, remaining, r);
      var t, more := Turn(|b|, remaining, kind, length), Turns(step.rest, remaining - length - 4, step.response);
      AllTrueNext(t, more);
      assert Turns(b, remaining, r) == [t] + more;
    }
  }

  lemma AllTrueNext(t: Turn, more: seq<Turn>)
    ensures AllTrue([t] + more) <==> TrueLength(t) && AllTrue(more)
  {
    var turns := [t] + more;
    assert forall i :: 0 <= i < |more| ==> turns[i + 1] == more[i];
    assert turns[0] == t;
  }

  lemma TrueSize(kind: uint16, length: uint16, b: seq<byte>, remaining: int)
    requires |b| >= 4
    ensures TrueLength(Turn(|b|, remaining, kind, length)) <==> Size(kind, length, b[4..]) == length
  {
  }

  /** A body is in step if and only if its first attribute is and what follows it is. */
  lemma InStepNext(b: seq<byte>, remaining: int, r: Response)
    requires DecodeBody(b, remaining, r).Done? && remaining > 0
    ensures var kind, length := FromBig16(b[..2]), FromBig16(b[2..4]);
            var step := Take(kind, length, b[4..], r);
            InStep(b, remaining, r) <==>
            Size(kind, length, b[4..]) == length && InStep(step.rest, remaining - length - 4, step.response)
  {
    var kind, length := FromBig16(b[..2]), FromBig16(b[2..4]);
    TakeSize(kind, length, b[4..], r);
    hide FromBig16, Take, Size;
    var step := Take(kind, length, b[4..], r);
    BytesTaken(step.rest, remaining - length - 4, step.response);
    var turns, more := Turns(b, remaining, r), Turns(step.rest, remaining - length - 4, step.response);
    assert forall i :: 0 <= i < |more| ==> turns[i + 1] == more[i];
    assert forall i :: 0 < i < |turns| ==> turns[i] == more[i - 1];
    if InStep(b, remaining, r) {
      if more != [] {
        assert turns[1] == more[0];
        assert |b| - turns[1].bytes == remaining - turns[1].remaining;
      } else {
        assert remaining - length - 4 <= 0;
      }
    }
  }

  /** Exactly `length` bytes are read if and only if that is what the values take;
      where the declared sizes fill the body, if and only if both sizes sum alike;
      where each attribute declares what it takes, if and only if they fill the body. */
  lemma ReadExactlyIff(b: seq<byte>, length: uint16)
    requires DecodeBody(b, length, EMPTY).Done?
    ensures var read, (taken, declared) := |b| - |DecodeBody(b, length, EMPTY).rest|, Sizes(b, length, EMPTY);
            && declared >= length && (read == length <==> taken == length)
            && (declared == length ==> (read == length <==> taken == declared))
            && (AllTrue(Turns(b, length, EMPTY)) ==> (read == length <==> declared == length))
  {
    hide DecodeBody, Turns, AllTrue, Sizes;
    BytesTaken(b, length, EMPTY);
    InStepIff(b, length, EMPTY);
  }

  /** An address that declares four bytes is read as eight: twelve bytes of a body of eight. */
  lemma ShortAddressReadsOn(a: Address, tail: seq<byte>)
    ensures var b := Big16(MAPPED_ADDRESS) + Big16(4) + (AddressBytes(a) + tail);
            DecodeBody(b, 8, EMPTY) == Done(EMPTY.(mapped := Some(a)), tail)
  {
    hide Big16, FromBig16, Little16, FromLittle16, DecodeAddress, AddressBytes;
    Integers16(MAPPED_ADDRESS);
    Integers16(4);
    AddressRoundTrip(a, tail);
    TakeParts(Big16(MAPPED_ADDRESS), Big16(4), AddressBytes(a) + tail, 8, EMPTY);
  }

  // ----- the binding response

  datatype Verdict = Valid | Invalid | Unexpected

  method UnpackBindingResponse(stream: Bitstream) returns (verdict: Verdict, id: seq<byte>, response: Response)
    requires stream.Valid() && |stream.Rest()| >= 20
    requires var h := DecodeHeader(stream.Rest());
             h.Some? ==> DecodeBody(stream.Rest()[20..], h.value.length, EMPTY) != Stuck
    modifies stream`offset
    ensures stream.Valid()
    ensures match DecodeHeader(old(stream.Rest()))
            case None => verdict == Invalid
            case Some(h) =>
              if WireMethod(h.field) != BINDING || WireClass(h.field) == 0 then verdict == Unexpected
              else if h.length == 0 then verdict == Invalid
              else match DecodeBody(old(stream.Rest())[20..], h.length, EMPTY)
                   case Done(r, rest) => verdict == Valid && id == h.id && response == r && stream.Rest() == rest
                   case _ => verdict == Invalid
  {
    id, response := [], EMPTY;
    var h, kind, cls := UnpackHeader(stream);
    if h.None? {
      return Invalid, id, response;
    }
    id := h.value.id;
    if kind != BINDING || cls == 0 {
      return Unexpected, id, response;
    }
    if h.value.length == 0 {
      return Invalid, id, response;
    }
    var valid;
    valid, response := UnpackBody(stream, h.value.length);
    verdict := if valid then Valid else Invalid;
  }

  /** A response carries its id and the last address of each kind to the client, whatever follows it. */
  lemma {:induction false} ResponseRoundTrip(h: Header, attributes: seq<Attribute>, tail: seq<byte>)
    requires |h.id| == ID_LENGTH && |BodyBytes(attributes)| == h.length
    requires forall i :: 0 <= i < |attributes| ==> WellFormed(attributes[i])
    ensures var b := HeaderBytes(h) + (BodyBytes(attributes) + tail);
            && DecodeHeader(b) == Some(h)
            && DecodeBody(b[20..], h.length, EMPTY) == Done(Summary(attributes, EMPTY), tail)
  {
    HeaderRoundTrip(h, BodyBytes(attributes) + tail);
    BodyRoundTrip(attributes, tail, EMPTY);
    assert (HeaderBytes(h) + (BodyBytes(attributes) + tail))[20..] == BodyBytes(attributes) + tail;
  }
}
