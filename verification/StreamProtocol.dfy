/** The stream packet: a 15-byte header and a data object of up to 231 bytes. */
module StreamProtocol {
  import opened Basics
  import opened MachineInts
  import opened Bitstream

  const PROTOCOL_ID: byte := 0xa2
  const PROTOCOL_VERSION: byte := 0x01
  const TYPE_STREAM: byte := 0x05
  const PACKET_MAX: nat := 256
  const DATA_MAX: nat := PACKET_MAX - 3 - 22

  datatype Header = Header(sequence: uint32, ack: uint32, ackBits: uint32)

  datatype Data = Data(tag: uint64, body: seq<byte>)

  /** The pieces in which a header is written. */
  function HeaderChunks(h: Header): seq<seq<byte>>
  {
    [[PROTOCOL_ID], [PROTOCOL_VERSION], [TYPE_STREAM], Big32(h.sequence), Big32(h.ack), Big32(h.ackBits)]
  }

  function DataChunks(d: Data): seq<seq<byte>>
  {
    [Big64(d.tag), Big16(|d.body|), Reversed(d.body)]
  }

  function HeaderBytes(h: Header): (b: seq<byte>)
    ensures |b| == 15
  {
    [PROTOCOL_ID, PROTOCOL_VERSION, TYPE_STREAM] + Big32(h.sequence) + Big32(h.ack) + Big32(h.ackBits)
  }

  function DataBytes(d: Data): (b: seq<byte>)
    ensures |b| == 10 + |d.body|
  {
    Big64(d.tag) + Big16(|d.body|) + Reversed(d.body)
  }

  /** Reading stops at the first byte that is not the protocol's, so only so many bytes are needed. */
  predicate HeaderLasts(b: seq<byte>)
  {
    && |b| >= 1
    && (b[0] == PROTOCOL_ID ==> |b| >= 2)
    && (b[0] == PROTOCOL_ID && b[1] == PROTOCOL_VERSION ==> |b| >= 3)
    && (b[0] == PROTOCOL_ID && b[1] == PROTOCOL_VERSION && b[2] == TYPE_STREAM ==> |b| >= 15)
  }

  function DecodeHeader(b: seq<byte>): Option<Header>
    requires HeaderLasts(b)
  {
    if b[0] == PROTOCOL_ID && b[1] == PROTOCOL_VERSION && b[2] == TYPE_STREAM
    then Some(Header(FromBig32(b[3..7]), FromBig32(b[7..11]), FromBig32(b[11..15])))
    else None
  }

  /** A body longer than what remains is not read; its length is reported all the same. */
  function DecodeData(b: seq<byte>): (uint64, uint16, seq<byte>)
    requires |b| >= 10
  {
    var n := FromBig16(b[8..10]);
    (FromBig64(b[..8]), n, if n <= |b| - 10 then Reversed(b[10..10 + n]) else [])
  }

  lemma HeaderRoundTrip(h: Header, rest: seq<byte>)
    ensures HeaderLasts(HeaderBytes(h) + rest) && DecodeHeader(HeaderBytes(h) + rest) == Some(h)
  {
    hide Big32, FromBig32, Little32, FromLittle32;
    var b := HeaderBytes(h) + rest;
    assert b[3..7] == Big32(h.sequence) && b[7..11] == Big32(h.ack) && b[11..15] == Big32(h.ackBits);
    Integers32(h.sequence);
    Integers32(h.ack);
    Integers32(h.ackBits);
  }

  lemma DataRoundTrip(d: Data, rest: seq<byte>)
    requires |d.body| < 0x1_0000
    ensures DecodeData(DataBytes(d) + rest) == (d.tag, |d.body|, d.body)
  {
    var b := DataBytes(d) + rest;
    assert b[..8] == Big64(d.tag) && b[8..10] == Big16(|d.body|) && b[10..10 + |d.body|] == Reversed(d.body);
    Integers64(d.tag);
    Integers16(|d.body|);
    ReversedTwice(d.body);
  }

  lemma FlatHeader(h: Header)
    ensures Flat(HeaderChunks(h)) == HeaderBytes(h)
  {
    var c := HeaderChunks(h);
    assert c == c[..3] + c[3..];
    FlatConcat(c[..3], c[3..]);
    FlatThree(c[..3]);
    FlatThree(c[3..]);
  }

  lemma FlatData(d: Data)
    ensures Flat(DataChunks(d)) == DataBytes(d)
  {
    FlatThree(DataChunks(d));
  }

  /** A header and an object of legal size always fit a fresh packet, with nothing dropped. */
  lemma PacketFits(h: Header, d: Data)
    requires |d.body| <= DATA_MAX
    ensures AppendAll(AppendAll([], HeaderChunks(h), PACKET_MAX), DataChunks(d), PACKET_MAX) ==
            HeaderBytes(h) + DataBytes(d)
    ensures |HeaderBytes(h) + DataBytes(d)| <= PACKET_MAX
  {
    FlatHeader(h);
    FlatData(d);
    PackedWholeIffFits([], HeaderChunks(h), PACKET_MAX);
    assert [] + HeaderBytes(h) == HeaderBytes(h);
    PackedWholeIffFits(HeaderBytes(h), DataChunks(d), PACKET_MAX);
  }

  method PackHeader(stream: Bitstream, h: Header)
    requires stream.Valid()
    modifies stream`offset, stream.data
    ensures stream.Valid() && stream.Packed() == AppendAll(old(stream.Packed()), HeaderChunks(h), stream.bound)
  {
    ghost var p, c, n := stream.Packed(), HeaderChunks(h), stream.bound;
    stream.WriteUint8(PROTOCOL_ID);
    stream.WriteUint8(PROTOCOL_VERSION);
    stream.WriteUint8(TYPE_STREAM);
    stream.WriteUint32(h.sequence);
    stream.WriteUint32(h.ack);
    stream.WriteUint32(h.ackBits);
    SixChunks(p, c, n);
  }

  lemma SixChunks(p: seq<byte>, c: seq<seq<byte>>, n: nat)
    requires |p| <= n && |c| == 6
    ensures AppendAll(p, c, n) ==
            Append(Append(Append(Append(Append(Append(p, c[0], n), c[1], n), c[2], n), c[3], n), c[4], n), c[5], n)
  {
    assert c == c[..3] + c[3..];
    AppendAllConcat(p, c[..3], c[3..], n);
    ThreeChunks(p, c[..3], n);
    ThreeChunks(AppendAll(p, c[..3], n), c[3..], n);
  }

  method PackData(stream: Bitstream, obj: StreamObject)
    requires stream.Valid() && obj.Valid() && obj.data != stream.data
    modifies stream`offset, stream.data
    ensures stream.Valid() && stream.Packed() == AppendAll(old(stream.Packed()), DataChunks(obj.Value()), stream.bound)
  {
    ghost var p, c, n := stream.Packed(), DataChunks(obj.Value()), stream.bound;
    stream.WriteUint64(obj.tag);
    stream.WriteUint16(obj.length);
    var written := stream.WriteBytes(obj.data[..obj.length]);
    ThreeChunks(p, c, n);
  }

  /** Stops at the first header byte that is not the stream protocol's. */
  method UnpackHeader(stream: Bitstream) returns (h: Option<Header>)
    requires stream.Valid() && HeaderLasts(stream.Rest())
    modifies stream`offset
    ensures stream.Valid() && h == DecodeHeader(old(stream.Rest()))
    ensures h.Some? ==> stream.Rest() == old(stream.Rest())[15..]
  {
    hide FromBig32;
    ghost var b := stream.Rest();
    var id := stream.ReadUint8();
    if id != PROTOCOL_ID {
      return None;
    }
    var version := stream.ReadUint8();
    if version != PROTOCOL_VERSION {
      return None;
    }
    var kind := stream.ReadUint8();
    if kind != TYPE_STREAM {
      return None;
    }
    assert stream.Rest() == b[3..];
    var sequence := stream.ReadUint32();
    assert b[3..][..4] == b[3..7] && stream.Rest() == b[7..];
    var ack := stream.ReadUint32();
    assert b[7..][..4] == b[7..11] && stream.Rest() == b[11..];
    var ackBits := stream.ReadUint32();
    assert b[11..][..4] == b[11..15] && stream.Rest() == b[15..];
    h := Some(Header(sequence, ack, ackBits));
  }

  /** In a packet whose header has been read, whatever its bytes, the body never outgrows the obj. */
  method UnpackData(stream: Bitstream, obj: StreamObject) returns (length: uint16)
    requires stream.Valid() && obj.data.Length == DATA_MAX && obj.data != stream.data
    requires 10 <= |stream.Rest()| <= 10 + DATA_MAX
    modifies stream`offset, obj`tag, obj`length, obj.data
    ensures stream.Valid()
    ensures var (tag, n, body) := DecodeData(old(stream.Rest()));
            && obj.tag == tag && obj.length == length == n
            && |body| <= DATA_MAX && obj.data[..|body|] == body
    ensures stream.Rest() == if length <= |old(stream.Rest())| - 10 then old(stream.Rest())[10 + length..]
                             else old(stream.Rest())[10..]
  {
    hide FromBig64, FromBig16;
    ghost var b := stream.Rest();
    obj.tag := stream.ReadUint64();
    length := stream.ReadUint16();
    assert b[8..][..2] == b[8..10] && stream.Rest() == b[10..];
    obj.length := length;
    var body := stream.ReadBytes(length);
    if length <= |b| - 10 {
      assert b[10..][..length] == b[10..10 + length] && stream.Rest() == b[10 + length..];
    }
    forall i | 0 <= i < |body| {
      obj.data[i] := body[i];
    }
  }

  class StreamObject {
    const data: array<byte>
    var length: nat
    var tag: uint64

    ghost predicate Valid()
      reads this
    {
      data.Length == DATA_MAX && length <= DATA_MAX
    }

    ghost function Value(): Data
      requires Valid()
      reads this, data
    {
      Data(tag, data[..length])
    }

    constructor ()
      ensures Valid() && Value() == Data(0, []) && fresh(data)
    {
      data := new byte[DATA_MAX](_ => 0);
      length, tag := 0, 0;
      new;
      assert data[..length] == [];
    }

    /** A chunk that does not fit is dropped whole; the data is the chunks accepted so far. */
    method CopyData(chunk: seq<byte>)
      requires Valid()
      modifies this`length, data
      ensures Valid() && Value() == Data(old(tag), Append(old(Value()).body, chunk, DATA_MAX))
    {
      if length + |chunk| <= DATA_MAX {
        forall i | 0 <= i < |chunk| {
          data[length + i] := chunk[i];
        }
        length := length + |chunk|;
        assert data[..length] == old(data[..length]) + chunk;
      }
    }
  }

  /** Copies any sequence of chunks into a fresh object: it then holds the
      concatenation of those that found room, 231 bytes at most. */
  method Collect(chunks: seq<seq<byte>>) returns (obj: StreamObject)
    ensures fresh(obj) && fresh(obj.data) && obj.Valid() && obj.Value() == Data(0, Flat(Accepted(0, chunks, DATA_MAX)))
  {
    obj := new StreamObject();
    for i := 0 to |chunks|
      invariant fresh(obj) && fresh(obj.data) && obj.Valid()
      invariant obj.Value() == Data(0, AppendAll([], chunks[..i], DATA_MAX))
    {
      AppendAllConcat([], chunks[..i], [chunks[i]], DATA_MAX);
      assert chunks[..i + 1] == chunks[..i] + [chunks[i]];
      obj.CopyData(chunks[i]);
    }
    assert chunks[..|chunks|] == chunks;
    AppendAllAccepted([], chunks, DATA_MAX);
    assert [] + Flat(Accepted(0, chunks, DATA_MAX)) == Flat(Accepted(0, chunks, DATA_MAX));
  }

  /** A packet packed into 256 bytes and read back: every field, and every byte of the body, is restored. */
  lemma PacketRoundTrip(h: Header, d: Data)
    requires |d.body| <= DATA_MAX
    ensures var b := AppendAll(AppendAll([], HeaderChunks(h), PACKET_MAX), DataChunks(d), PACKET_MAX);
            && |b| >= 25 && HeaderLasts(b) && DecodeHeader(b) == Some(h)
            && DecodeData(b[15..]) == (d.tag, |d.body|, d.body)
  {
    PacketFits(h, d);
    HeaderRoundTrip(h, DataBytes(d));
    DataRoundTrip(d, []);
    assert (HeaderBytes(h) + DataBytes(d))[15..] == DataBytes(d) + [];
  }
}
