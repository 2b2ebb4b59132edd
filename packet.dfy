/**
 * SCTP packet framing (section 3 of RFC 4960): the 12-byte common
 * header, the walk over the chunks that follow it, padding on encode,
 * and the packet-level validity rules. The CRC32c digest, the chunk
 * header reader and the per-chunk codecs are outside this model and
 * enter as the fields of a `ChunkCodec`.
 */
module Packets {
  import opened Serial
  import opened Errors
  import opened Chunks

  const PACKET_HEADER_SIZE: nat := 12

  /** The four bytes the checksum occupies while the checksum is computed. */
  const ZERO_CHECKSUM: seq<byte> := [0, 0, 0, 0]

  datatype CommonHeader = CommonHeader(sourcePort: u16, destinationPort: u16, verificationTag: u32)

  datatype Packet = Packet(commonHeader: CommonHeader, chunks: seq<Chunk>)

  /** What the chunk header reader reports: the type code and the value length. */
  datatype ChunkHeader = ChunkHeader(typ: byte, valueLength: nat)

  /**
   * The code this model does not contain, as functions:
   * `parseHeader` is `ChunkHeader::unmarshal`, `unmarshal` the per-type
   * chunk decoder applied to the bytes from the chunk's first byte on,
   * `marshal` what a chunk's `marshal_to` appends (header and value,
   * no padding), `valueLength` a chunk's `value_length()`, and `crc` the
   * CRC32c digest.
   */
  datatype ChunkCodec = ChunkCodec(
    parseHeader: seq<byte> -> Result<ChunkHeader>,
    unmarshal: seq<byte> -> Result<Chunk>,
    marshal: Chunk -> Result<seq<byte>>,
    valueLength: Chunk -> nat,
    crc: seq<byte> -> u32)

  // ---- Byte order ----------------------------------------------------------

  function PutU16(x: u16): (b: seq<byte>)
    ensures |b| == 2
  {
    [x / 0x100, x % 0x100]
  }

  function PutU32(x: u32): (b: seq<byte>)
    ensures |b| == 4
  {
    PutU16(x / 0x1_0000) + PutU16(x % 0x1_0000)
  }

  function PutU32Le(x: u32): (b: seq<byte>)
    ensures |b| == 4
  {
    var be := PutU32(x);
    [be[3], be[2], be[1], be[0]]
  }

  /** The big-endian u16 at `at`. */
  function GetU16(b: seq<byte>, at: nat): u16
    requires at + 2 <= |b|
  {
    (b[at] as int) * 0x100 + b[at + 1]
  }

  /** The big-endian u32 at `at`. */
  function GetU32(b: seq<byte>, at: nat): u32
    requires at + 4 <= |b|
  {
    (GetU16(b, at) as int) * 0x1_0000 + GetU16(b, at + 2)
  }

  /** The little-endian u32 at `at`. */
  function GetU32Le(b: seq<byte>, at: nat): u32
    requires at + 4 <= |b|
  {
    GetU32([b[at + 3], b[at + 2], b[at + 1], b[at]], 0)
  }

  /** Reading back a written u16 gives the value. */
  lemma ReadPut16(b: seq<byte>, at: nat, x: u16)
    requires at + 2 <= |b| && b[at..at + 2] == PutU16(x)
    ensures GetU16(b, at) == x
  {
    assert b[at] == PutU16(x)[0] && b[at + 1] == PutU16(x)[1];
  }

  /** Writing a u16 that was read gives the bytes back. */
  lemma PutRead16(b: seq<byte>, at: nat)
    requires at + 2 <= |b|
    ensures PutU16(GetU16(b, at)) == b[at..at + 2]
  {
  }

  lemma ReadPut32(b: seq<byte>, at: nat, x: u32)
    requires at + 4 <= |b| && b[at..at + 4] == PutU32(x)
    ensures GetU32(b, at) == x
  {
    assert b[at..at + 2] == PutU32(x)[..2] == PutU16(x / 0x1_0000);
    assert b[at + 2..at + 4] == PutU32(x)[2..] == PutU16(x % 0x1_0000);
    ReadPut16(b, at, x / 0x1_0000);
    ReadPut16(b, at + 2, x % 0x1_0000);
  }

  lemma PutRead32(b: seq<byte>, at: nat)
    requires at + 4 <= |b|
    ensures PutU32(GetU32(b, at)) == b[at..at + 4]
  {
    var hi := GetU16(b, at);
    var lo := GetU16(b, at + 2);
    var v := GetU32(b, at);
    assert v / 0x1_0000 == hi && v % 0x1_0000 == lo;
    PutRead16(b, at);
    PutRead16(b, at + 2);
  }

  lemma ReadPut32Le(b: seq<byte>, at: nat, x: u32)
    requires at + 4 <= |b| && b[at..at + 4] == PutU32Le(x)
    ensures GetU32Le(b, at) == x
  {
    var le := [b[at + 3], b[at + 2], b[at + 1], b[at]];
    assert le == PutU32(x);
    ReadPut32(le, 0, x);
  }

  lemma PutRead32Le(b: seq<byte>, at: nat)
    requires at + 4 <= |b|
    ensures PutU32Le(GetU32Le(b, at)) == b[at..at + 4]
  {
    var le := [b[at + 3], b[at + 2], b[at + 1], b[at]];
    PutRead32(le, 0);
    assert le[0..4] == le;
  }

  /** `get_padding_size`: the bytes that bring `n` up to a multiple of 4. */
  function PaddingSize(n: nat): (p: nat)
    ensures p < 4 && (n + p) % 4 == 0
  {
    (4 - n % 4) % 4
  }

  /** Padding depends only on the length modulo 4. */
  lemma PaddingShift(m: nat, n: nat)
    requires m % 4 == 0
    ensures PaddingSize(m + n) == PaddingSize(n)
  {
  }

  function Zeros(n: nat): (z: seq<byte>)
    ensures |z| == n && forall k :: 0 <= k < n ==> z[k] == 0
  {
    seq(n, _ => 0)
  }

  // ---- Decoding ------------------------------------------------------------

  /** The chunk types the decoder knows; any other type code is refused. HEARTBEAT ACK is not among them. */
  predicate KnownChunkType(t: byte) {
    t == CT_INIT || t == CT_INIT_ACK || t == CT_ABORT || t == CT_COOKIE_ECHO || t == CT_COOKIE_ACK
    || t == CT_HEARTBEAT || t == CT_PAYLOAD_DATA || t == CT_SACK || t == CT_RECONFIG
    || t == CT_FORWARD_TSN || t == CT_ERROR || t == CT_SHUTDOWN || t == CT_SHUTDOWN_ACK
    || t == CT_SHUTDOWN_COMPLETE
  }

  /** `generate_packet_checksum`: the digest of the packet with its checksum field zeroed. */
  function PacketChecksum(raw: seq<byte>, codec: ChunkCodec): u32
    requires |raw| >= PACKET_HEADER_SIZE
  {
    codec.crc(raw[..8] + ZERO_CHECKSUM + raw[PACKET_HEADER_SIZE..])
  }

  /**
   * The checks both decoders start with: at least a common header, and a
   * checksum (stored little-endian) that matches the packet's digest.
   */
  function DecodeCommonHeader(raw: seq<byte>, codec: ChunkCodec): Result<CommonHeader> {
    if |raw| < PACKET_HEADER_SIZE then Err(ErrPacketRawTooSmall)
    else if GetU32Le(raw, 8) != PacketChecksum(raw, codec) then Err(ErrChecksumMismatch)
    else Ok(CommonHeader(GetU16(raw, 0), GetU16(raw, 2), GetU32(raw, 4)))
  }

  /** A result with `cs` put in front of the chunks, errors passed through. */
  function Prefixed(cs: seq<Chunk>, r: Result<seq<Chunk>>): Result<seq<Chunk>> {
    match r
    case Ok(rest) => Ok(cs + rest)
    case Err(e) => Err(e)
  }

  lemma PrefixedNil(r: Result<seq<Chunk>>)
    ensures Prefixed([], r) == r
  {
    if r.Ok? {
      assert [] + r.value == r.value;
    }
  }

  lemma PrefixedAppend(a: seq<Chunk>, b: seq<Chunk>, r: Result<seq<Chunk>>)
    ensures Prefixed(a, Prefixed(b, r)) == Prefixed(a + b, r)
  {
    if r.Ok? {
      assert a + (b + r.value) == (a + b) + r.value;
    }
  }

  function ChunkWalkMeasure(raw: seq<byte>, offset: nat): nat {
    if offset <= |raw| then |raw| - offset + 1 else 0
  }

  /**
   * The chunk walk from `offset`: done exactly at the end of the input,
   * an error with fewer than 4 bytes of chunk header left or an unknown
   * type, and otherwise the decoded chunk followed by the walk from
   * 4 + value length + padding further on.
   */
  function ParseChunks(raw: seq<byte>, offset: nat, codec: ChunkCodec): Result<seq<Chunk>>
    decreases ChunkWalkMeasure(raw, offset)
  {
    if offset == |raw| then Ok([])
    else if offset + CHUNK_HEADER_SIZE > |raw| then Err(ErrParseSctpChunkNotEnoughData)
    else if !KnownChunkType(raw[offset]) then Err(ErrUnmarshalUnknownChunkType)
    else
      match codec.unmarshal(raw[offset..])
      case Err(e) => Err(e)
      case Ok(c) =>
        var n := codec.valueLength(c);
        Prefixed([c], ParseChunks(raw, offset + CHUNK_HEADER_SIZE + n + PaddingSize(n), codec))
  }

  /** The walk only looks at the input from where it starts: dropping a prefix shifts every offset. */
  lemma {:induction false} ParseChunksShift(raw: seq<byte>, j: nat, k: nat, codec: ChunkCodec)
    requires j <= |raw|
    ensures ParseChunks(raw, j + k, codec) == ParseChunks(raw[j..], k, codec)
    decreases ChunkWalkMeasure(raw, j + k)
  {
    var tail := raw[j..];
    if j + k != |raw| && j + k + CHUNK_HEADER_SIZE <= |raw| {
      assert tail[k] == raw[j + k];
      assert tail[k..] == raw[j + k..];
      if KnownChunkType(raw[j + k]) && codec.unmarshal(raw[j + k..]).Ok? {
        var c := codec.unmarshal(raw[j + k..]).value;
        var n := codec.valueLength(c);
        ParseChunksShift(raw, j, k + CHUNK_HEADER_SIZE + n + PaddingSize(n), codec);
      }
    }
  }

  /** `Packet::unmarshal` as a value. */
  function Decode(raw: seq<byte>, codec: ChunkCodec): Result<Packet> {
    match DecodeCommonHeader(raw, codec)
    case Err(e) => Err(e)
    case Ok(h) => AsPacket(h, ParseChunks(raw, PACKET_HEADER_SIZE, codec))
  }

  function AsPacket(h: CommonHeader, r: Result<seq<Chunk>>): Result<Packet> {
    match r
    case Ok(cs) => Ok(Packet(h, cs))
    case Err(e) => Err(e)
  }

  /** The chunk walk of `unmarshal` and `finish`, with its mutable offset. */
  method WalkChunks(raw: seq<byte>, start: nat, codec: ChunkCodec) returns (r: Result<seq<Chunk>>)
    ensures r == ParseChunks(raw, start, codec)
  {
    var chunks: seq<Chunk> := [];
    var offset: nat := start;
    PrefixedNil(ParseChunks(raw, start, codec));
    while true
      invariant ParseChunks(raw, start, codec) == Prefixed(chunks, ParseChunks(raw, offset, codec))
      decreases ChunkWalkMeasure(raw, offset)
    {
      if offset == |raw| {
        assert chunks + [] == chunks;
        return Ok(chunks);
      } else if offset + CHUNK_HEADER_SIZE > |raw| {
        return Err(ErrParseSctpChunkNotEnoughData);
      }
      if !KnownChunkType(raw[offset]) {
        return Err(ErrUnmarshalUnknownChunkType);
      }
      var c := codec.unmarshal(raw[offset..]);
      if c.Err? {
        return Err(c.error);
      }
      var chunkValuePadding := PaddingSize(codec.valueLength(c.value));
      offset := offset + CHUNK_HEADER_SIZE + codec.valueLength(c.value) + chunkValuePadding;
      PrefixedAppend(chunks, [c.value], ParseChunks(raw, offset, codec));
      chunks := chunks + [c.value];
    }
  }

  /** `Packet::unmarshal`. */
  method Unmarshal(raw: seq<byte>, codec: ChunkCodec) returns (r: Result<Packet>)
    ensures r == Decode(raw, codec)
  {
    if |raw| < PACKET_HEADER_SIZE {
      return Err(ErrPacketRawTooSmall);
    }
    var sourcePort := GetU16(raw, 0);
    var destinationPort := GetU16(raw, 2);
    var verificationTag := GetU32(raw, 4);
    var theirChecksum := GetU32Le(raw, 8);
    var ourChecksum := PacketChecksum(raw, codec);
    if theirChecksum != ourChecksum {
      return Err(ErrChecksumMismatch);
    }
    var chunks := WalkChunks(raw, PACKET_HEADER_SIZE, codec);
    r := AsPacket(CommonHeader(sourcePort, destinationPort, verificationTag), chunks);
  }

  /** What `PartialDecode::unmarshal` keeps: the header, the bytes after it, and a look at the first chunk. */
  datatype PartialDecode = PartialDecode(
    commonHeader: CommonHeader,
    remaining: seq<byte>,
    firstChunkType: byte,
    initiateTag: Option<u32>,
    cookie: Option<seq<byte>>)

  /**
   * `PartialDecode::unmarshal`: the header checks of `Decode`, then the
   * first chunk's header; the Initiate Tag of an INIT or INIT ACK and the
   * cookie of a COOKIE ECHO are read straight from the input, and a read
   * past its end panics.
   */
  function PartialUnmarshal(raw: seq<byte>, codec: ChunkCodec): (r: Result<PartialDecode>)
    ensures DecodeCommonHeader(raw, codec).Err? ==> r == Err(DecodeCommonHeader(raw, codec).error)
    ensures r.Ok? ==> DecodeCommonHeader(raw, codec) == Ok(r.value.commonHeader)
                      && r.value.remaining == raw[PACKET_HEADER_SIZE..]
    ensures r.Ok? ==> (r.value.initiateTag.Some? <==> r.value.firstChunkType in {CT_INIT, CT_INIT_ACK})
    ensures r.Ok? && r.value.initiateTag.Some? ==> |raw| >= 20 && r.value.initiateTag.value == GetU32(raw, 16)
    ensures r.Ok? ==> (r.value.cookie.Some? <==> r.value.firstChunkType == CT_COOKIE_ECHO)
    ensures r.Ok? ==> |raw| >= PACKET_HEADER_SIZE + CHUNK_HEADER_SIZE
    ensures r.Ok? ==> codec.parseHeader(raw[PACKET_HEADER_SIZE..]).Ok?
                      && r.value.firstChunkType == codec.parseHeader(raw[PACKET_HEADER_SIZE..]).value.typ
    ensures r.Ok? && r.value.cookie.Some? ==>
              var end := PACKET_HEADER_SIZE + CHUNK_HEADER_SIZE + codec.parseHeader(raw[PACKET_HEADER_SIZE..]).value.valueLength;
              end <= |raw| && r.value.cookie.value == raw[PACKET_HEADER_SIZE + CHUNK_HEADER_SIZE..end]
    ensures DecodeCommonHeader(raw, codec).Ok? && |raw| < PACKET_HEADER_SIZE + CHUNK_HEADER_SIZE ==>
              r == Err(ErrParseSctpChunkNotEnoughData)
    ensures DecodeCommonHeader(raw, codec).Ok? && |raw| >= PACKET_HEADER_SIZE + CHUNK_HEADER_SIZE
            && codec.parseHeader(raw[PACKET_HEADER_SIZE..]).Err? ==>
              r == Err(codec.parseHeader(raw[PACKET_HEADER_SIZE..]).error)
    ensures r.Err? && DecodeCommonHeader(raw, codec).Ok? && |raw| >= PACKET_HEADER_SIZE + CHUNK_HEADER_SIZE
            && codec.parseHeader(raw[PACKET_HEADER_SIZE..]).Ok? ==>
              var header := codec.parseHeader(raw[PACKET_HEADER_SIZE..]).value;
              r == Err(Panic)
              && ((header.typ in {CT_INIT, CT_INIT_ACK} && |raw| < PACKET_HEADER_SIZE + CHUNK_HEADER_SIZE + 4)
                  || (header.typ == CT_COOKIE_ECHO && |raw| < PACKET_HEADER_SIZE + CHUNK_HEADER_SIZE + header.valueLength))
  {
    match DecodeCommonHeader(raw, codec)
    case Err(e) => Err(e)
    case Ok(h) =>
      if |raw| - PACKET_HEADER_SIZE < CHUNK_HEADER_SIZE then Err(ErrParseSctpChunkNotEnoughData)
      else
        match codec.parseHeader(raw[PACKET_HEADER_SIZE..])
        case Err(e) => Err(e)
        case Ok(header) =>
          var remaining := raw[PACKET_HEADER_SIZE..];
          var valueStart := PACKET_HEADER_SIZE + CHUNK_HEADER_SIZE;
          if header.typ == CT_INIT || header.typ == CT_INIT_ACK then
            if valueStart + 4 > |raw| then Err(Panic)
            else Ok(PartialDecode(h, remaining, header.typ, Some(GetU32(raw, valueStart)), None))
          else if header.typ == CT_COOKIE_ECHO then
            if valueStart + header.valueLength > |raw| then Err(Panic)
            else Ok(PartialDecode(h, remaining, header.typ, None, Some(raw[valueStart..valueStart + header.valueLength])))
          else
            Ok(PartialDecode(h, remaining, header.typ, None, None))
  }

  /** `PartialDecode::finish`: the chunk walk over the bytes after the header. */
  method Finish(pd: PartialDecode, codec: ChunkCodec) returns (r: Result<Packet>)
    ensures r == AsPacket(pd.commonHeader, ParseChunks(pd.remaining, 0, codec))
  {
    var chunks := WalkChunks(pd.remaining, 0, codec);
    r := AsPacket(pd.commonHeader, chunks);
  }

  /** A partial decode finished later gives exactly what `Packet::unmarshal` gives for the same input. */
  lemma PartialThenFinishIsUnmarshal(raw: seq<byte>, codec: ChunkCodec)
    requires PartialUnmarshal(raw, codec).Ok?
    ensures var pd := PartialUnmarshal(raw, codec).value;
      AsPacket(pd.commonHeader, ParseChunks(pd.remaining, 0, codec)) == Decode(raw, codec)
  {
    ParseChunksShift(raw, PACKET_HEADER_SIZE, 0, codec);
  }

  // ---- Encoding ------------------------------------------------------------

  function HeaderBytes(h: CommonHeader): (b: seq<byte>)
    ensures |b| == 8
  {
    PutU16(h.sourcePort) + PutU16(h.destinationPort) + PutU32(h.verificationTag)
  }

  /** The writer's contents after appending chunks, and the codec error that stopped it, if any. */
  datatype Written = Written(bytes: seq<byte>, failure: Option<Error>)

  /**
   * The chunk loop of `marshal_to`: each chunk's bytes, then zeros up to
   * a multiple of 4 of the whole writer's length. A failing chunk encoder
   * stops the loop and is taken to have appended nothing.
   */
  function AppendChunks(w: seq<byte>, cs: seq<Chunk>, codec: ChunkCodec): (r: Written)
    ensures |w| <= |r.bytes| && r.bytes[..|w|] == w
    ensures r.failure.None? && |w| % 4 == 0 ==> |r.bytes| % 4 == 0
    decreases |cs|
  {
    if cs == [] then Written(w, None)
    else
      match codec.marshal(cs[0])
      case Err(e) => Written(w, Some(e))
      case Ok(b) =>
        var w1 := w + b;
        var r := AppendChunks(w1 + Zeros(PaddingSize(|w1|)), cs[1..], codec);
        assert r.bytes[..|w|] == (w1 + Zeros(PaddingSize(|w1|)))[..|w|];
        r
  }

  /** The bytes `w` with the four at `pos` replaced by the little-endian `checksum`. */
  function PatchChecksum(w: seq<byte>, pos: nat, checksum: u32): (r: seq<byte>)
    requires pos + 4 <= |w|
    ensures |r| == |w|
  {
    w[..pos] + PutU32Le(checksum) + w[pos + 4..]
  }

  /** `Packet::marshal` as a value: header, zeroed checksum, padded chunks, then the digest patched in. */
  function Encode(p: Packet, codec: ChunkCodec): Result<seq<byte>> {
    var pre := HeaderBytes(p.commonHeader) + ZERO_CHECKSUM;
    var out := AppendChunks(pre, p.chunks, codec);
    if out.failure.Some? then Err(out.failure.value)
    else Ok(PatchChecksum(out.bytes, 8, codec.crc(out.bytes)))
  }

  /** A growable byte buffer (`BytesMut`). */
  class Writer {
    var bytes: seq<byte>

    constructor()
      ensures bytes == []
    {
      bytes := [];
    }
  }

  /**
   * `marshal_to`: appends the packet to what `w` already holds, padding
   * after each chunk, then patches the digest of the whole buffer into
   * the checksum slot.
   */
  method MarshalTo(p: Packet, w: Writer, codec: ChunkCodec) returns (r: Result<nat>)
    modifies w
    ensures var checksumPos := |old(w.bytes)| + 8;
      var out := AppendChunks(old(w.bytes) + HeaderBytes(p.commonHeader) + ZERO_CHECKSUM, p.chunks, codec);
      (out.failure.Some? ==> r == Err(out.failure.value) && w.bytes == out.bytes)
      && (out.failure.None? ==> w.bytes == PatchChecksum(out.bytes, checksumPos, codec.crc(out.bytes))
                                && r == Ok(|w.bytes|))
  {
    w.bytes := w.bytes + PutU16(p.commonHeader.sourcePort);
    w.bytes := w.bytes + PutU16(p.commonHeader.destinationPort);
    w.bytes := w.bytes + PutU32(p.commonHeader.verificationTag);
    var checksumPos := |w.bytes|;
    w.bytes := w.bytes + ZERO_CHECKSUM;
    assert w.bytes == old(w.bytes) + HeaderBytes(p.commonHeader) + ZERO_CHECKSUM;
    var failure := WriteChunks(w, p.chunks, codec);
    if failure.Some? {
      r := Err(failure.value);
    } else {
      var checksum := codec.crc(w.bytes);
      w.bytes := w.bytes[..checksumPos] + PutU32Le(checksum) + w.bytes[checksumPos + 4..];
      r := Ok(|w.bytes|);
    }
  }

  /** The chunk loop of `marshal_to`: appends what `AppendChunks` says and reports its failure. */
  method WriteChunks(w: Writer, chunks: seq<Chunk>, codec: ChunkCodec) returns (failure: Option<Error>)
    modifies w
    ensures AppendChunks(old(w.bytes), chunks, codec) == Written(w.bytes, failure)
  {
    ghost var pre := w.bytes;
    var i := 0;
    failure := None;
    while i < |chunks|
      invariant 0 <= i <= |chunks| && failure.None?
      invariant AppendChunks(pre, chunks, codec) == AppendChunks(w.bytes, chunks[i..], codec)
    {
      var b := codec.marshal(chunks[i]);
      if b.Err? {
        failure := Some(b.error);
        break;
      }
      w.bytes := w.bytes + b.value;
      var paddingNeeded := PaddingSize(|w.bytes|);
      if paddingNeeded != 0 {
        w.bytes := w.bytes + Zeros(paddingNeeded);
      } else {
        assert w.bytes + Zeros(paddingNeeded) == w.bytes;
      }
      assert chunks[i..][1..] == chunks[i + 1..];
      i := i + 1;
    }
  }

  /** `Packet::marshal`: `marshal_to` into a fresh buffer. */
  method Marshal(p: Packet, codec: ChunkCodec) returns (r: Result<seq<byte>>)
    ensures r == Encode(p, codec)
  {
    var w := new Writer();
    var n := MarshalTo(p, w, codec);
    assert [] + HeaderBytes(p.commonHeader) + ZERO_CHECKSUM == HeaderBytes(p.commonHeader) + ZERO_CHECKSUM;
    if n.Err? {
      return Err(n.error);
    }
    return Ok(w.bytes);
  }

  // ---- Round trips ---------------------------------------------------------

  /**
   * What the packet codec needs of a chunk codec for `c`: the chunk
   * encodes to its 4-byte header plus its value, starting with its known
   * type code, and decodes back from any input that starts with those bytes.
   */
  ghost predicate ChunkRoundTrips(codec: ChunkCodec, c: Chunk) {
    codec.marshal(c).Ok?
    && |codec.marshal(c).value| == CHUNK_HEADER_SIZE + codec.valueLength(c)
    && codec.marshal(c).value[0] == ChunkType(c)
    && KnownChunkType(ChunkType(c))
    && forall rest: seq<byte> :: codec.unmarshal(codec.marshal(c).value + rest) == Ok(c)
  }

  ghost predicate AllRoundTrip(codec: ChunkCodec, cs: seq<Chunk>) {
    forall k :: 0 <= k < |cs| ==> ChunkRoundTrips(codec, cs[k])
  }

  /** The chunks each followed by their padding, as they appear after the common header. */
  ghost function Framed(cs: seq<Chunk>, codec: ChunkCodec): seq<byte>
    requires AllRoundTrip(codec, cs)
  {
    if cs == [] then []
    else
      var b := codec.marshal(cs[0]).value;
      AllRoundTripTail(codec, cs);
      b + (Zeros(PaddingSize(|b|)) + Framed(cs[1..], codec))
  }

  /** From an aligned writer, appending the chunks appends exactly their framing. */
  lemma {:induction false} AppendChunksFrames(w: seq<byte>, cs: seq<Chunk>, codec: ChunkCodec)
    requires |w| % 4 == 0 && AllRoundTrip(codec, cs)
    ensures AppendChunks(w, cs, codec) == Written(w + Framed(cs, codec), None)
    decreases |cs|
  {
    if cs == [] {
      assert w + Framed(cs, codec) == w;
    } else {
      var w2 := AppendFirstAligned(w, cs, codec);
      AppendChunksFrames(w2, cs[1..], codec);
    }
  }

  /** From an aligned writer, the first chunk and its padding are the head of the framing, and leave the writer aligned. */
  lemma AppendFirstAligned(w: seq<byte>, cs: seq<Chunk>, codec: ChunkCodec) returns (w2: seq<byte>)
    requires |w| % 4 == 0 && cs != [] && AllRoundTrip(codec, cs)
    ensures |w2| % 4 == 0 && AllRoundTrip(codec, cs[1..])
    ensures AppendChunks(w, cs, codec) == AppendChunks(w2, cs[1..], codec)
    ensures w2 + Framed(cs[1..], codec) == w + Framed(cs, codec)
  {
    FramedCons(cs, codec);
    var b := codec.marshal(cs[0]).value;
    var pad := Zeros(PaddingSize(|b|));
    PadAfterAligned(|w|, |b|);
    w2 := w + b + pad;
  }

  /** A frame of `n` bytes after `m` aligned ones is padded as if alone, and ends aligned. */
  lemma PadAfterAligned(m: nat, n: nat)
    requires m % 4 == 0
    ensures PaddingSize(m + n) == PaddingSize(n) && (m + n + PaddingSize(n)) % 4 == 0
  {
    PaddingShift(m, n);
  }

  lemma AllRoundTripTail(codec: ChunkCodec, cs: seq<Chunk>)
    requires cs != [] && AllRoundTrip(codec, cs)
    ensures ChunkRoundTrips(codec, cs[0]) && AllRoundTrip(codec, cs[1..])
  {
    forall k | 0 <= k < |cs[1..]| ensures ChunkRoundTrips(codec, cs[1..][k]) {
      assert cs[1..][k] == cs[k + 1];
    }
  }

  lemma FramedCons(cs: seq<Chunk>, codec: ChunkCodec)
    requires cs != [] && AllRoundTrip(codec, cs)
    ensures AllRoundTrip(codec, cs[1..])
    ensures var b := codec.marshal(cs[0]).value;
      Framed(cs, codec) == b + (Zeros(PaddingSize(|b|)) + Framed(cs[1..], codec))
  {
    AllRoundTripTail(codec, cs);
  }

  /** The chunk walk over a framing gives back the chunks. */
  lemma {:induction false} ParseFramed(cs: seq<Chunk>, codec: ChunkCodec)
    requires AllRoundTrip(codec, cs)
    ensures ParseChunks(Framed(cs, codec), 0, codec) == Ok(cs)
    decreases |cs|
  {
    if cs != [] {
      ParseFramedStep(cs, codec);
      ParseFramed(cs[1..], codec);
      assert [cs[0]] + cs[1..] == cs;
    }
  }

  /** The first step of the walk over a framing decodes its first chunk and lands on the next. */
  lemma ParseFramedStep(cs: seq<Chunk>, codec: ChunkCodec)
    requires cs != [] && AllRoundTrip(codec, cs)
    ensures AllRoundTrip(codec, cs[1..])
    ensures ParseChunks(Framed(cs, codec), 0, codec) == Prefixed([cs[0]], ParseChunks(Framed(cs[1..], codec), 0, codec))
  {
    FramedHead(cs, codec);
    var n := codec.valueLength(cs[0]);
    WalkFirst(Framed(cs, codec), cs[0], CHUNK_HEADER_SIZE + n + PaddingSize(n), codec);
  }

  /** The walk from 0 over input whose first chunk decodes to `c` continues with the rest after it. */
  lemma WalkFirst(raw: seq<byte>, c: Chunk, j: nat, codec: ChunkCodec)
    requires CHUNK_HEADER_SIZE <= |raw| && KnownChunkType(raw[0]) && codec.unmarshal(raw) == Ok(c)
    requires j == CHUNK_HEADER_SIZE + codec.valueLength(c) + PaddingSize(codec.valueLength(c)) <= |raw|
    ensures ParseChunks(raw, 0, codec) == Prefixed([c], ParseChunks(raw[j..], 0, codec))
  {
    assert raw[0..] == raw;
    ParseChunksStep(raw, 0, c, codec);
    ParseChunksShift(raw, j, 0, codec);
  }

  /** A framing starts with its first chunk's known type, decodes to it, and continues after its padding. */
  lemma FramedHead(cs: seq<Chunk>, codec: ChunkCodec)
    requires cs != [] && AllRoundTrip(codec, cs)
    ensures AllRoundTrip(codec, cs[1..])
    ensures var raw := Framed(cs, codec);
      var n := codec.valueLength(cs[0]);
      var j := CHUNK_HEADER_SIZE + n + PaddingSize(n);
      CHUNK_HEADER_SIZE <= j <= |raw| && KnownChunkType(raw[0]) && codec.unmarshal(raw) == Ok(cs[0])
      && raw[j..] == Framed(cs[1..], codec)
  {
    var c := cs[0];
    FramedCons(cs, codec);
    var b := codec.marshal(c).value;
    var tail := Zeros(PaddingSize(|b|)) + Framed(cs[1..], codec);
    assert codec.unmarshal(b + tail) == Ok(c);
    var n := codec.valueLength(c);
    PaddingShift(CHUNK_HEADER_SIZE, n);
    assert (b + tail)[0] == b[0];
    assert (b + tail)[|b| + PaddingSize(|b|)..] == Framed(cs[1..], codec) by {
      assert (b + tail)[|b|..] == tail;
    }
  }

  /** One step of the walk at a known chunk the codec decodes. */
  lemma ParseChunksStep(raw: seq<byte>, offset: nat, c: Chunk, codec: ChunkCodec)
    requires offset + CHUNK_HEADER_SIZE <= |raw| && KnownChunkType(raw[offset])
    requires codec.unmarshal(raw[offset..]) == Ok(c)
    ensures var n := codec.valueLength(c);
      ParseChunks(raw, offset, codec) == Prefixed([c], ParseChunks(raw, offset + CHUNK_HEADER_SIZE + n + PaddingSize(n), codec))
  {
  }

  /** Decoding an encoded packet gives the packet back, whenever the chunk codecs round-trip. */
  lemma DecodeEncode(p: Packet, codec: ChunkCodec)
    requires AllRoundTrip(codec, p.chunks)
    ensures Encode(p, codec).Ok? && Decode(Encode(p, codec).value, codec) == Ok(p)
  {
    var h := p.commonHeader;
    var pre := HeaderBytes(h) + ZERO_CHECKSUM;
    AppendChunksFrames(pre, p.chunks, codec);
    var body := pre + Framed(p.chunks, codec);
    var raw := PatchChecksum(body, 8, codec.crc(body));
    assert Encode(p, codec) == Ok(raw);
    assert body[..8] == HeaderBytes(h) && body[8..12] == ZERO_CHECKSUM;
    PatchedHeaderDecodes(body, h, codec);
    assert raw[PACKET_HEADER_SIZE..] == Framed(p.chunks, codec);
    ParseChunksShift(raw, PACKET_HEADER_SIZE, 0, codec);
    ParseFramed(p.chunks, codec);
  }

  /**
   * Bytes that start with the encoded header and a zeroed checksum slot,
   * with their digest patched in, pass the header checks and give back
   * the header.
   */
  lemma PatchedHeaderDecodes(body: seq<byte>, h: CommonHeader, codec: ChunkCodec)
    requires |body| >= PACKET_HEADER_SIZE && body[..8] == HeaderBytes(h) && body[8..12] == ZERO_CHECKSUM
    ensures DecodeCommonHeader(PatchChecksum(body, 8, codec.crc(body)), codec) == Ok(h)
  {
    var sum := codec.crc(body);
    var raw := PatchChecksum(body, 8, sum);
    assert raw[..8] == body[..8];
    assert raw[8..12] == PutU32Le(sum);
    assert raw[PACKET_HEADER_SIZE..] == body[PACKET_HEADER_SIZE..];
    assert raw[..8] + ZERO_CHECKSUM + raw[PACKET_HEADER_SIZE..] == body;
    ReadPut32Le(raw, 8, sum);
    assert raw[0..2] == PutU16(h.sourcePort) && raw[2..4] == PutU16(h.destinationPort) && raw[4..8] == PutU32(h.verificationTag);
    ReadPut16(raw, 0, h.sourcePort);
    ReadPut16(raw, 2, h.destinationPort);
    ReadPut32(raw, 4, h.verificationTag);
  }

  /** A header-only packet that decodes is encoded back to the same 12 bytes. */
  lemma HeaderOnlyRoundTrip(raw: seq<byte>, codec: ChunkCodec)
    requires |raw| == PACKET_HEADER_SIZE && Decode(raw, codec).Ok?
    ensures Encode(Decode(raw, codec).value, codec) == Ok(raw)
  {
    var h := CommonHeader(GetU16(raw, 0), GetU16(raw, 2), GetU32(raw, 4));
    var body := raw[..8] + ZERO_CHECKSUM;
    assert Decode(raw, codec) == Ok(Packet(h, [])) && GetU32Le(raw, 8) == codec.crc(body) by {
      assert ParseChunks(raw, PACKET_HEADER_SIZE, codec) == Ok([]);
      assert raw[..8] + ZERO_CHECKSUM + raw[PACKET_HEADER_SIZE..] == body;
    }
    assert Encode(Packet(h, []), codec) == Ok(PatchChecksum(body, 8, codec.crc(body))) by {
      HeaderBytesOfDecoded(raw);
    }
    ChecksumSlotRoundTrip(raw);
  }

  /** Writing back the checksum read from a 12-byte header restores it. */
  lemma ChecksumSlotRoundTrip(raw: seq<byte>)
    requires |raw| == PACKET_HEADER_SIZE
    ensures PatchChecksum(raw[..8] + ZERO_CHECKSUM, 8, GetU32Le(raw, 8)) == raw
  {
    var body := raw[..8] + ZERO_CHECKSUM;
    var slot := PutU32Le(GetU32Le(raw, 8));
    PutRead32Le(raw, 8);
    assert slot == raw[8..12];
    assert body[..8] == raw[..8];
    assert body[12..] == [];
    assert PatchChecksum(body, 8, GetU32Le(raw, 8)) == raw[..8] + slot + [];
    assert raw[..8] + raw[8..12] + [] == raw;
  }

  /** Re-encoding the header fields read from bytes gives those bytes. */
  lemma HeaderBytesOfDecoded(raw: seq<byte>)
    requires |raw| >= 8
    ensures HeaderBytes(CommonHeader(GetU16(raw, 0), GetU16(raw, 2), GetU32(raw, 4))) == raw[..8]
  {
    PutRead16(raw, 0);
    PutRead16(raw, 2);
    PutRead32(raw, 4);
    assert raw[..8] == raw[0..2] + raw[2..4] + raw[4..8];
  }

  /** Every encoded packet is a whole number of 4-byte words, at least the common header long. */
  lemma EncodeAligned(p: Packet, codec: ChunkCodec)
    requires Encode(p, codec).Ok?
    ensures |Encode(p, codec).value| % 4 == 0
    ensures |Encode(p, codec).value| >= PACKET_HEADER_SIZE
    ensures Encode(p, codec).value[..8] == HeaderBytes(p.commonHeader)
  {
    var pre := HeaderBytes(p.commonHeader) + ZERO_CHECKSUM;
    var out := AppendChunks(pre, p.chunks, codec);
    assert out.bytes[..8] == pre[..8];
  }

  // ---- Validation ----------------------------------------------------------

  /** An INIT chunk (not an INIT ACK). */
  predicate IsInit(c: Chunk) {
    c.Init? && !c.init.isAck
  }

  /**
   * The chunk loop of `check_packet`: for the first INIT among `cs`, the
   * packet must hold no other chunk, then its verification tag must be 0.
   */
  function CheckInitChunks(h: CommonHeader, count: nat, cs: seq<Chunk>): (r: Result<()>)
    ensures r == Ok(()) <==> forall k :: 0 <= k < |cs| && IsInit(cs[k]) ==> count == 1 && h.verificationTag == 0
    ensures r.Err? ==> (exists k :: 0 <= k < |cs| && IsInit(cs[k]))
                       && r.error == (if count != 1 then ErrInitChunkBundled else ErrInitChunkVerifyTagNotZero)
  {
    if cs == [] then Ok(())
    else if IsInit(cs[0]) && count != 1 then Err(ErrInitChunkBundled)
    else if IsInit(cs[0]) && h.verificationTag != 0 then Err(ErrInitChunkVerifyTagNotZero)
    else
      var r := CheckInitChunks(h, count, cs[1..]);
      assert forall k :: 1 <= k < |cs| ==> cs[1..][k - 1] == cs[k];
      r
  }

  /**
   * `check_packet`: ports must be non-zero, and an INIT must travel alone
   * with verification tag 0 (sections 3.1 and 8.5.1 of RFC 4960).
   */
  function CheckPacket(p: Packet): (r: Result<()>)
    ensures r == Ok(()) <==>
              p.commonHeader.sourcePort != 0 && p.commonHeader.destinationPort != 0
              && forall k :: 0 <= k < |p.chunks| && IsInit(p.chunks[k]) ==>
                   |p.chunks| == 1 && p.commonHeader.verificationTag == 0
    ensures p.commonHeader.sourcePort == 0 ==> r == Err(ErrSctpPacketSourcePortZero)
    ensures p.commonHeader.sourcePort != 0 && p.commonHeader.destinationPort == 0 ==>
              r == Err(ErrSctpPacketDestinationPortZero)
    ensures r == Err(ErrInitChunkBundled) ==> |p.chunks| > 1
  {
    if p.commonHeader.sourcePort == 0 then Err(ErrSctpPacketSourcePortZero)
    else if p.commonHeader.destinationPort == 0 then Err(ErrSctpPacketDestinationPortZero)
    else CheckInitChunks(p.commonHeader, |p.chunks|, p.chunks)
  }
}
