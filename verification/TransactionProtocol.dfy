/** Type-length-value attributes of the transaction protocol, and the peer list made of them. */
module TransactionProtocol {
  import opened Basics
  import opened MachineInts
  import opened NetAddr
  import opened Bitstream

  const TYPE_STRING: byte := 0x01
  const TYPE_ADDRESS: byte := 0x02
  const TYPE_COUNT: byte := 0x04
  const LENGTH_ADDRESS: byte := 8
  const LENGTH_COUNT: byte := 2
  const PEER_ID_MAX: nat := 32
  const PEERS_MAX: nat := 10

  datatype Peer = Peer(id: seq<byte>, localAddress: Address, mappedAddress: Address)

  // ----- the pieces written, and their bytes

  function StringChunks(s: seq<byte>): seq<seq<byte>>
  {
    [[TYPE_STRING], [(2 + |s|) % 0x100], [|s| % 0x100] + Reversed(s)]
  }

  function AddressChunks(a: Address): seq<seq<byte>>
  {
    [[TYPE_ADDRESS], [LENGTH_ADDRESS], Little16(a.port), Little32(a.host)]
  }

  function CountChunks(n: nat): seq<seq<byte>>
  {
    [[TYPE_COUNT], [LENGTH_COUNT], Big16(n)]
  }

  function PeerChunks(p: Peer): seq<seq<byte>>
  {
    StringChunks(p.id) + AddressChunks(p.localAddress) + AddressChunks(p.mappedAddress)
  }

  function PeersChunks(peers: seq<Peer>): seq<seq<byte>>
  {
    if peers == [] then [] else PeerChunks(peers[0]) + PeersChunks(peers[1..])
  }

  function ListChunks(peers: seq<Peer>): seq<seq<byte>>
  {
    CountChunks(|peers|) + PeersChunks(peers)
  }

  function StringBytes(s: seq<byte>): (b: seq<byte>)
    ensures |b| == 3 + |s|
  {
    [TYPE_STRING, (2 + |s|) % 0x100, |s| % 0x100] + Reversed(s)
  }

  function AddressBytes(a: Address): (b: seq<byte>)
    ensures |b| == 8
  {
    [TYPE_ADDRESS, LENGTH_ADDRESS] + Little16(a.port) + Little32(a.host)
  }

  function CountBytes(n: nat): (b: seq<byte>)
    ensures |b| == 4
  {
    [TYPE_COUNT, LENGTH_COUNT] + Big16(n)
  }

  function PeerBytes(p: Peer): (b: seq<byte>)
    ensures |b| == 19 + |p.id|
  {
    StringBytes(p.id) + AddressBytes(p.localAddress) + AddressBytes(p.mappedAddress)
  }

  function PeersBytes(peers: seq<Peer>): seq<byte>
  {
    if peers == [] then [] else PeerBytes(peers[0]) + PeersBytes(peers[1..])
  }

  function ListBytes(peers: seq<Peer>): seq<byte>
  {
    CountBytes(|peers|) + PeersBytes(peers)
  }

  lemma FlatAddress(a: Address)
    ensures Flat(AddressChunks(a)) == AddressBytes(a)
  {
    var c := AddressChunks(a);
    FlatThree(c[1..]);
    assert Flat(c) == c[0] + Flat(c[1..]);
  }

  lemma FlatPeer(p: Peer)
    ensures Flat(PeerChunks(p)) == PeerBytes(p)
  {
    FlatThree(StringChunks(p.id));
    FlatAddress(p.localAddress);
    FlatAddress(p.mappedAddress);
    FlatConcat(StringChunks(p.id) + AddressChunks(p.localAddress), AddressChunks(p.mappedAddress));
    FlatConcat(StringChunks(p.id), AddressChunks(p.localAddress));
  }

  lemma {:induction false} FlatPeers(peers: seq<Peer>)
    ensures Flat(PeersChunks(peers)) == PeersBytes(peers)
  {
    if peers != [] {
      FlatPeer(peers[0]);
      FlatPeers(peers[1..]);
      FlatConcat(PeerChunks(peers[0]), PeersChunks(peers[1..]));
    }
  }

  function EncodedSize(peers: seq<Peer>): nat
  {
    if peers == [] then 0 else 19 + |peers[0].id| + EncodedSize(peers[1..])
  }

  /** A peer list is packed whole if and only if 4 bytes and 19 more than its id for each peer fit. */
  lemma PeerListPackedIffFits(packed: seq<byte>, peers: seq<Peer>, bound: nat)
    requires |packed| <= bound
    ensures AppendAll(packed, ListChunks(peers), bound) == packed + ListBytes(peers) <==>
            |packed| + 4 + EncodedSize(peers) <= bound
  {
    FlatList(peers);
    PackedWholeIffFits(packed, ListChunks(peers), bound);
  }

  lemma FlatList(peers: seq<Peer>)
    ensures Flat(ListChunks(peers)) == ListBytes(peers) && |ListBytes(peers)| == 4 + EncodedSize(peers)
  {
    FlatThree(CountChunks(|peers|));
    FlatPeers(peers);
    FlatConcat(CountChunks(|peers|), PeersChunks(peers));
    SizeOfPeers(peers);
  }

  lemma {:induction false} SizeOfPeers(peers: seq<Peer>)
    ensures |PeersBytes(peers)| == EncodedSize(peers)
  {
    if peers != [] {
      SizeOfPeers(peers[1..]);
    }
  }

  // ----- packing

  method PackString(stream: Bitstream, s: seq<byte>)
    requires stream.Valid()
    modifies stream`offset, stream.data
    ensures stream.Valid() && stream.Packed() == AppendAll(old(stream.Packed()), StringChunks(s), stream.bound)
  {
    ThreeChunks(stream.Packed(), StringChunks(s), stream.bound);
    stream.WriteUint8(TYPE_STRING);
    stream.WriteUint8(2 + |s|);
    var written := stream.WriteStr(s);
  }

  method PackAddress(stream: Bitstream, a: Address)
    requires stream.Valid()
    modifies stream`offset, stream.data
    ensures stream.Valid() && stream.Packed() == AppendAll(old(stream.Packed()), AddressChunks(a), stream.bound)
  {
    ghost var c := AddressChunks(a);
    ThreeChunks(Append(stream.Packed(), c[0], stream.bound), c[1..], stream.bound);
    stream.WriteUint8(TYPE_ADDRESS);
    stream.WriteUint8(LENGTH_ADDRESS);
    stream.WriteUint16Endian(a.port);
    stream.WriteUint32Endian(a.host);
  }

  method PackCount(stream: Bitstream, n: nat)
    requires stream.Valid()
    modifies stream`offset, stream.data
    ensures stream.Valid() && stream.Packed() == AppendAll(old(stream.Packed()), CountChunks(n), stream.bound)
  {
    ThreeChunks(stream.Packed(), CountChunks(n), stream.bound);
    stream.WriteUint8(TYPE_COUNT);
    stream.WriteUint8(LENGTH_COUNT);
    stream.WriteUint16(n);
  }

  method PackPeer(stream: Bitstream, p: Peer)
    requires stream.Valid()
    modifies stream`offset, stream.data
    ensures stream.Valid() && stream.Packed() == AppendAll(old(stream.Packed()), PeerChunks(p), stream.bound)
  {
    ghost var packed, n := stream.Packed(), stream.bound;
    AppendAllConcat(packed, StringChunks(p.id) + AddressChunks(p.localAddress), AddressChunks(p.mappedAddress), n);
    AppendAllConcat(packed, StringChunks(p.id), AddressChunks(p.localAddress), n);
    PackString(stream, p.id);
    PackAddress(stream, p.localAddress);
    PackAddress(stream, p.mappedAddress);
  }

  /** Writes the pieces in order; whatever does not fit is dropped, piece by piece. */
  method PackPeerList(stream: Bitstream, peers: PeerList)
    requires stream.Valid() && peers.Valid()
    modifies stream`offset, stream.data
    ensures stream.Valid()
    ensures stream.Packed() == AppendAll(old(stream.Packed()), ListChunks(peers.Peers()), stream.bound)
  {
    ghost var packed, n, all := stream.Packed(), stream.bound, peers.Peers();
    AppendAllConcat(packed, CountChunks(|all|), PeersChunks(all), n);
    PackCount(stream, peers.count);
    ghost var counted := stream.Packed();
    for i := 0 to peers.count
      invariant stream.Valid() && peers.Peers() == all
      invariant AppendAll(stream.Packed(), PeersChunks(all[i..]), n) == AppendAll(counted, PeersChunks(all), n)
    {
      assert all[i..][1..] == all[i + 1..];
      AppendAllConcat(stream.Packed(), PeerChunks(all[i]), PeersChunks(all[i + 1..]), n);
      PackPeer(stream, peers.list[i]);
    }
  }

  // ----- unpacking, on any bytes

  /** Past: the next read would pass the end. Otherwise the verdict on the attribute, the
      value its destination is left with, and the bytes not yet read. */
  datatype Unpacked<T> = Past | Unpacked(valid: bool, value: T, rest: seq<byte>)

  /** The attribute's own length is read and ignored. */
  function DecodeString(b: seq<byte>, max: nat, was: seq<byte>): Unpacked<seq<byte>>
  {
    if |b| < 1 then Past
    else if b[0] != TYPE_STRING then Unpacked(false, was, b[1..])
    else if |b| < 3 then Past
    else var (s, rest) := StrOf(b[2..], max, was); Unpacked(true, s, rest)
  }

  function DecodeAddress(b: seq<byte>, was: Address): Unpacked<Address>
  {
    if |b| < 1 then Past
    else if b[0] != TYPE_ADDRESS then Unpacked(false, was, b[1..])
    else if |b| < 2 then Past
    else if b[1] != LENGTH_ADDRESS then Unpacked(false, was, b[2..])
    else if |b| < 8 then Past
    else Unpacked(true, Address(FromLittle16(b[2..4]), FromLittle32(b[4..8])), b[8..])
  }

  function DecodeCount(b: seq<byte>, was: nat): Unpacked<nat>
  {
    if |b| < 1 then Past
    else if b[0] != TYPE_COUNT then Unpacked(false, was, b[1..])
    else if |b| < 2 then Past
    else if b[1] != LENGTH_COUNT then Unpacked(false, was, b[2..])
    else if |b| < 4 then Past
    else var n: nat := FromBig16(b[2..4]); Unpacked(true, n, b[4..])
  }

  /** Each attribute's verdict overwrites the one before. */
  function DecodePeer(b: seq<byte>, was: Peer): Unpacked<Peer>
  {
    var id := DecodeString(b, PEER_ID_MAX, was.id);
    if id.Past? then Past else
    var localAddress := DecodeAddress(id.rest, was.localAddress);
    if localAddress.Past? then Past else
    var mappedAddress := DecodeAddress(localAddress.rest, was.mappedAddress);
    if mappedAddress.Past? then Past else
    Unpacked(mappedAddress.valid, Peer(id.value, localAddress.value, mappedAddress.value), mappedAddress.rest)
  }

  /** One peer for each slot, read over what the slot held. */
  function DecodePeers(b: seq<byte>, valid: bool, was: seq<Peer>): Unpacked<seq<Peer>>
    decreases was
  {
    if was == [] then Unpacked(valid, [], b) else
    var p := DecodePeer(b, was[0]);
    if p.Past? then Past else
    var more := DecodePeers(p.rest, p.valid, was[1..]);
    if more.Past? then Past else Unpacked(more.valid, [p.value] + more.value, more.rest)
  }

  /** A count that cannot be read leaves the old count, and the list is read all
      the same; one beyond the list's capacity runs past the end. */
  function DecodeList(b: seq<byte>, count: nat, list: seq<Peer>): Unpacked<seq<Peer>>
  {
    var n := DecodeCount(b, count);
    if n.Past? || n.value > |list| then Past else DecodePeers(n.rest, n.valid, list[..n.value])
  }

  method UnpackString(stream: Bitstream, max: nat, was: seq<byte>) returns (valid: bool, s: seq<byte>)
    requires stream.Valid() && !DecodeString(stream.Rest(), max, was).Past?
    modifies stream`offset
    ensures stream.Valid() && DecodeString(old(stream.Rest()), max, was) == Unpacked(valid, s, stream.Rest())
  {
    ghost var b := stream.Rest();
    var kind := stream.ReadUint8();
    if kind != TYPE_STRING {
      return false, was;
    }
    var length := stream.ReadUint8();
    assert stream.Rest() == b[2..];
    s := stream.ReadStr(max, was);
    valid := true;
  }

  method UnpackAddress(stream: Bitstream, was: Address) returns (valid: bool, a: Address)
    requires stream.Valid() && !DecodeAddress(stream.Rest(), was).Past?
    modifies stream`offset
    ensures stream.Valid() && DecodeAddress(old(stream.Rest()), was) == Unpacked(valid, a, stream.Rest())
  {
    ghost var b := stream.Rest();
    var kind := stream.ReadUint8();
    if kind != TYPE_ADDRESS {
      return false, was;
    }
    var length := stream.ReadUint8();
    assert stream.Rest() == b[2..];
    if length != LENGTH_ADDRESS {
      return false, was;
    }
    assert b[2..][..2] == b[2..4];
    var port := stream.ReadUint16Endian();
    assert stream.Rest() == b[4..] && b[4..][..4] == b[4..8];
    var host := stream.ReadUint32Endian();
    assert stream.Rest() == b[8..];
    return true, Address(port, host);
  }

  method UnpackCount(stream: Bitstream, was: nat) returns (valid: bool, n: nat)
    requires stream.Valid() && !DecodeCount(stream.Rest(), was).Past?
    modifies stream`offset
    ensures stream.Valid() && DecodeCount(old(stream.Rest()), was) == Unpacked(valid, n, stream.Rest())
  {
    ghost var b := stream.Rest();
    var kind := stream.ReadUint8();
    if kind != TYPE_COUNT {
      return false, was;
    }
    var length := stream.ReadUint8();
    assert stream.Rest() == b[2..];
    if length != LENGTH_COUNT {
      return false, was;
    }
    assert b[2..][..2] == b[2..4];
    n := stream.ReadUint16();
    assert stream.Rest() == b[4..];
    valid := true;
  }

  method UnpackPeer(stream: Bitstream, was: Peer) returns (valid: bool, p: Peer)
    requires stream.Valid() && !DecodePeer(stream.Rest(), was).Past?
    modifies stream`offset
    ensures stream.Valid() && DecodePeer(old(stream.Rest()), was) == Unpacked(valid, p, stream.Rest())
  {
    hide DecodeString, DecodeAddress;
    var id, localAddress, mappedAddress;
    valid, id := UnpackString(stream, PEER_ID_MAX, was.id);
    valid, localAddress := UnpackAddress(stream, was.localAddress);
    valid, mappedAddress := UnpackAddress(stream, was.mappedAddress);
    p := Peer(id, localAddress, mappedAddress);
  }

  lemma PeersNext(b: seq<byte>, valid: bool, slots: seq<Peer>, done: seq<Peer>)
    requires slots != [] && !DecodePeers(b, valid, slots).Past?
    ensures var p, all := DecodePeer(b, slots[0]), DecodePeers(b, valid, slots);
            && p.Unpacked?
            && var more := DecodePeers(p.rest, p.valid, slots[1..]);
               && more.Unpacked? && all.valid == more.valid && all.rest == more.rest
               && done + all.value == (done + [p.value]) + more.value
  {
    hide DecodePeer;
    var p := DecodePeer(b, slots[0]);
    var more := DecodePeers(p.rest, p.valid, slots[1..]);
    assert done + ([p.value] + more.value) == (done + [p.value]) + more.value;
  }

  lemma PeersDone(b: seq<byte>, valid: bool, done: seq<Peer>)
    ensures DecodePeers(b, valid, []) == Unpacked(valid, [], b) && done + [] == done && [] + done == done
  {
  }

  /** Reads the count, then a peer into each slot. */
  method UnpackPeerList(stream: Bitstream, peers: PeerList) returns (valid: bool)
    requires stream.Valid() && peers.Valid()
    requires !DecodeList(stream.Rest(), peers.count, peers.list[..]).Past?
    modifies stream`offset, peers`count, peers.list
    ensures stream.Valid() && peers.Valid()
    ensures DecodeList(old(stream.Rest()), old(peers.count), old(peers.list[..])) ==
            Unpacked(valid, peers.Peers(), stream.Rest())
  {
    hide DecodeCount, DecodePeer, DecodePeers;
    ghost var result := DecodeList(stream.Rest(), peers.count, peers.list[..]);
    valid, peers.count := UnpackCount(stream, peers.count);
    var n := peers.count;
    assert peers.list[0..n] == peers.list[..][..n];
    PeersDone([], valid, result.value);
    for i := 0 to n
      invariant stream.Valid() && peers.count == n <= PEERS_MAX
      invariant var more := DecodePeers(stream.Rest(), valid, peers.list[i..n]);
                more.Unpacked? && result == Unpacked(more.valid, peers.list[..i] + more.value, more.rest)
    {
      ghost var done, slots := peers.list[..i], peers.list[i..n];
      assert slots[1..] == peers.list[i + 1..n];
      PeersNext(stream.Rest(), valid, slots, done);
      var p;
      valid, p := UnpackPeer(stream, peers.list[i]);
      peers.list[i] := p;
      assert peers.list[..i + 1] == done + [p] && peers.list[i + 1..n] == slots[1..];
    }
    assert peers.list[n..n] == [];
    PeersDone(stream.Rest(), valid, peers.list[..n]);
  }

  // ----- round trip

  lemma AddressRoundTrip(a: Address, tail: seq<byte>, was: Address)
    ensures DecodeAddress(AddressBytes(a) + tail, was) == Unpacked(true, a, tail)
  {
    hide Big16, FromBig16, Little16, FromLittle16, Big32, FromBig32, Little32, FromLittle32;
    var b := AddressBytes(a) + tail;
    assert b[2..4] == Little16(a.port) && b[4..8] == Little32(a.host) && b[8..] == tail;
    Integers16(a.port);
    Integers32(a.host);
  }

  lemma StringRoundTrip(s: seq<byte>, tail: seq<byte>, was: seq<byte>)
    requires |s| < PEER_ID_MAX
    ensures DecodeString(StringBytes(s) + tail, PEER_ID_MAX, was) == Unpacked(true, s, tail)
  {
    var b := StringBytes(s) + tail;
    assert b[2..] == [|s|] + (Reversed(s) + tail);
    assert b[2..][1..] == Reversed(s) + tail;
    assert (Reversed(s) + tail)[..|s|] == Reversed(s) && (Reversed(s) + tail)[|s|..] == tail;
    ReversedTwice(s);
  }

  lemma CountRoundTrip(n: uint16, tail: seq<byte>, was: nat)
    ensures DecodeCount(CountBytes(n) + tail, was) == Unpacked(true, n, tail)
  {
    var b := CountBytes(n) + tail;
    assert b[2..4] == Big16(n) && b[4..] == tail;
    Integers16(n);
  }

  lemma PeerRoundTrip(p: Peer, tail: seq<byte>, was: Peer)
    requires |p.id| < PEER_ID_MAX
    ensures DecodePeer(PeerBytes(p) + tail, was) == Unpacked(true, p, tail)
  {
    hide StringBytes, AddressBytes, DecodeString, DecodeAddress;
    var rest := AddressBytes(p.localAddress) + (AddressBytes(p.mappedAddress) + tail);
    assert PeerBytes(p) + tail == StringBytes(p.id) + rest;
    StringRoundTrip(p.id, rest, was.id);
    AddressRoundTrip(p.localAddress, AddressBytes(p.mappedAddress) + tail, was.localAddress);
    AddressRoundTrip(p.mappedAddress, tail, was.mappedAddress);
  }

  /** Ids shorter than their field, and no more peers than the list has room for. */
  predicate Sendable(peers: seq<Peer>)
  {
    |peers| <= PEERS_MAX && forall i :: 0 <= i < |peers| ==> |peers[i].id| < PEER_ID_MAX
  }

  lemma {:induction false} PeersRoundTrip(sent: seq<Peer>, tail: seq<byte>, was: seq<Peer>)
    requires Sendable(sent) && |was| == |sent|
    ensures DecodePeers(PeersBytes(sent) + tail, true, was) == Unpacked(true, sent, tail)
    decreases sent
  {
    hide PeerBytes, DecodePeer;
    if sent == [] {
      assert [] + tail == tail;
    } else {
      var rest := PeersBytes(sent[1..]) + tail;
      assert PeersBytes(sent) + tail == PeerBytes(sent[0]) + rest;
      PeerRoundTrip(sent[0], rest, was[0]);
      PeersRoundTrip(sent[1..], tail, was[1..]);
      assert [sent[0]] + sent[1..] == sent;
    }
  }

  /** From the bytes of any list that can be sent, and whatever the receiving list
      held, the count, every id and every address come back, and reading stops
      where the list ends. */
  lemma ListRoundTrip(sent: seq<Peer>, tail: seq<byte>, count: nat, list: seq<Peer>)
    requires Sendable(sent) && |list| == PEERS_MAX
    ensures DecodeList(ListBytes(sent) + tail, count, list) == Unpacked(true, sent, tail)
  {
    hide CountBytes, PeersBytes, DecodeCount, DecodePeers;
    assert ListBytes(sent) + tail == CountBytes(|sent|) + (PeersBytes(sent) + tail);
    CountRoundTrip(|sent|, PeersBytes(sent) + tail, count);
    PeersRoundTrip(sent, tail, list[..|sent|]);
  }

  /** Where the buffer has room for the whole list, what is packed is read back as that list. */
  lemma ListCarriesAll(sent: seq<Peer>, bound: nat, tail: seq<byte>, count: nat, list: seq<Peer>)
    requires Sendable(sent) && |list| == PEERS_MAX && 4 + EncodedSize(sent) <= bound
    ensures DecodeList(AppendAll([], ListChunks(sent), bound) + tail, count, list) == Unpacked(true, sent, tail)
  {
    hide ListChunks, ListBytes, DecodeList;
    PeerListPackedIffFits([], sent, bound);
    assert [] + ListBytes(sent) == ListBytes(sent);
    ListRoundTrip(sent, tail, count, list);
  }

  // ----- the verdict on a list

  /** The bytes not yet read when only the last peer's mapped address is left. */
  function BeforeLast(b: seq<byte>, valid: bool, was: seq<Peer>): seq<byte>
    requires was != [] && !DecodePeers(b, valid, was).Past?
    decreases was
  {
    var p := DecodePeer(b, was[0]);
    if |was| > 1 then BeforeLast(p.rest, p.valid, was[1..])
    else DecodeAddress(DecodeString(b, PEER_ID_MAX, was[0].id).rest, was[0].localAddress).rest
  }

  predicate StartsAddress(b: seq<byte>)
  {
    |b| >= 2 && b[0] == TYPE_ADDRESS && b[1] == LENGTH_ADDRESS
  }

  /** Reading a nonempty list ends with the last address; the verdict on it is the
      verdict on the list, so a list is valid if and only if that attribute starts
      as an address must, whatever became of the others. */
  lemma {:induction false} VerdictIsLast(b: seq<byte>, valid: bool, was: seq<Peer>)
    requires was != [] && !DecodePeers(b, valid, was).Past?
    ensures var all, last := DecodePeers(b, valid, was), BeforeLast(b, valid, was);
            && |all.value| == |was|
            && DecodeAddress(last, Last(was).mappedAddress) ==
                 Unpacked(all.valid, Last(all.value).mappedAddress, all.rest)
            && (all.valid <==> StartsAddress(last))
    decreases was
  {
    hide DecodeString;
    PeersNext(b, valid, was, []);
    var p := DecodePeer(b, was[0]);
    if |was| == 1 {
      assert was[1..] == [];
    } else {
      VerdictIsLast(p.rest, p.valid, was[1..]);
      var more := DecodePeers(p.rest, p.valid, was[1..]);
      assert Last(was[1..]) == Last(was) && Last([p.value] + more.value) == Last(more.value);
    }
  }

  /** The verdict on a whole message: with no peers the count's, else the last address's. */
  lemma ListVerdictIff(b: seq<byte>, count: nat, list: seq<Peer>)
    requires !DecodeList(b, count, list).Past?
    ensures var n := DecodeCount(b, count);
            && n.Unpacked? && n.value <= |list|
            && var was := list[..n.value];
               DecodeList(b, count, list).valid <==>
               if was == [] then b[0] == TYPE_COUNT && b[1] == LENGTH_COUNT
               else StartsAddress(BeforeLast(n.rest, n.valid, was))
  {
    hide DecodePeer, DecodeAddress, DecodeString;
    var n := DecodeCount(b, count);
    var was := list[..n.value];
    if was == [] {
      PeersDone(n.rest, n.valid, []);
    } else {
      VerdictIsLast(n.rest, n.valid, was);
    }
  }

  lemma RefusedId(kind: byte, local: Address, mapped: Address, tail: seq<byte>, was: Peer)
    requires kind != TYPE_STRING
    ensures DecodePeer([kind] + (AddressBytes(local) + (AddressBytes(mapped) + tail)), was) ==
            Unpacked(true, Peer(was.id, local, mapped), tail)
  {
    hide AddressBytes, DecodeAddress;
    var rest := AddressBytes(local) + (AddressBytes(mapped) + tail);
    assert ([kind] + rest)[0] == kind && ([kind] + rest)[1..] == rest;
    AddressRoundTrip(local, AddressBytes(mapped) + tail, was.localAddress);
    AddressRoundTrip(mapped, tail, was.mappedAddress);
  }

  /** A list whose one id is refused is reported valid, the old id left in place. */
  lemma RefusedIdAccepted(kind: byte, local: Address, mapped: Address, tail: seq<byte>, count: nat, list: seq<Peer>)
    requires kind != TYPE_STRING && |list| == PEERS_MAX
    ensures var b := CountBytes(1) + ([kind] + (AddressBytes(local) + (AddressBytes(mapped) + tail)));
            DecodeList(b, count, list) == Unpacked(true, [Peer(list[0].id, local, mapped)], tail)
  {
    hide CountBytes, AddressBytes, DecodeCount, DecodePeer;
    var rest := [kind] + (AddressBytes(local) + (AddressBytes(mapped) + tail));
    CountRoundTrip(1, rest, count);
    RefusedId(kind, local, mapped, tail, list[0]);
    var slots := list[..1];
    assert slots[0] == list[0] && slots[1..] == [];
    PeersDone(tail, true, []);
    var p := Peer(list[0].id, local, mapped);
    assert DecodePeers(rest, true, slots) == Unpacked(true, [p] + [], tail);
    assert [p] + [] == [p] && list[..DecodeCount(CountBytes(1) + rest, count).value] == slots;
  }

  class PeerList {
    var count: nat
    const list: array<Peer>

    ghost predicate Valid()
      reads this
    {
      list.Length == PEERS_MAX && count <= PEERS_MAX
    }

    ghost function Peers(): seq<Peer>
      requires Valid()
      reads this, list
    {
      list[..count]
    }

    constructor ()
      ensures Valid() && Peers() == [] && fresh(list)
    {
      list := new Peer[PEERS_MAX](_ => Peer([], Address(0, 0), Address(0, 0)));
      count := 0;
    }

    /** The caller must know that the list has room. */
    method Add(p: Peer)
      requires Valid() && count < PEERS_MAX
      modifies this`count, list
      ensures Valid() && Peers() == old(Peers()) + [p]
    {
      list[count] := p;
      count := count + 1;
    }
  }
}
