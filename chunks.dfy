/**
 * The chunk values the packet codec and the association exchange
 * (section 3.3 of RFC 4960, section 3.2 of RFC 3758 for FORWARD TSN).
 * The byte layout of each chunk belongs to the per-chunk codecs, which
 * this model takes as parameters; only the fields the association reads
 * or writes appear here.
 */
module Chunks {
  import opened Serial
  import opened Errors

  // Chunk type codes (section 3.2 of RFC 4960; RE-CONFIG from RFC 6525, FORWARD TSN from RFC 3758).
  const CT_PAYLOAD_DATA: byte := 0
  const CT_INIT: byte := 1
  const CT_INIT_ACK: byte := 2
  const CT_SACK: byte := 3
  const CT_HEARTBEAT: byte := 4
  const CT_HEARTBEAT_ACK: byte := 5
  const CT_ABORT: byte := 6
  const CT_SHUTDOWN: byte := 7
  const CT_SHUTDOWN_ACK: byte := 8
  const CT_ERROR: byte := 9
  const CT_COOKIE_ECHO: byte := 10
  const CT_COOKIE_ACK: byte := 11
  const CT_SHUTDOWN_COMPLETE: byte := 14
  const CT_RECONFIG: byte := 130
  const CT_FORWARD_TSN: byte := 192

  /** Size of the type/flags/length header every chunk starts with. */
  const CHUNK_HEADER_SIZE: nat := 4

  /**
   * A DATA chunk together with the bookkeeping the queues keep on it.
   * `abandoned` stands for the value of the chunk's `abandoned()` test.
   */
  datatype ChunkPayloadData = ChunkPayloadData(
    tsn: u32,
    streamIdentifier: u16,
    streamSequenceNumber: u16,
    unordered: bool,
    beginningFragment: bool,
    endingFragment: bool,
    immediateSack: bool,
    userData: seq<byte>,
    acked: bool,
    retransmit: bool,
    abandoned: bool,
    missIndicator: nat,
    nsent: nat)

  /** One Gap Ack Block: offsets from the cumulative TSN ack (section 3.3.4 of RFC 4960). */
  datatype GapAckBlock = GapAckBlock(start: u16, end: u16)

  datatype ChunkSelectiveAck = ChunkSelectiveAck(
    cumulativeTsnAck: u32,
    advertisedReceiverWindowCredit: u32,
    gapAckBlocks: seq<GapAckBlock>,
    duplicateTsn: seq<u32>)

  /** INIT / INIT ACK parameters the association reads or writes. */
  datatype Param =
    | StateCookie(cookie: seq<byte>)
    | SupportedExtensions(chunkTypes: seq<byte>)
    | OtherParam(paramType: u16)

  /** An INIT chunk, or an INIT ACK chunk when `isAck` holds. */
  datatype ChunkInit = ChunkInit(
    isAck: bool,
    initiateTag: u32,
    advertisedReceiverWindowCredit: u32,
    numOutboundStreams: u16,
    numInboundStreams: u16,
    initialTsn: u32,
    params: seq<Param>)

  datatype ForwardTsnStream = ForwardTsnStream(identifier: u16, sequence: u16)

  datatype ChunkForwardTsn = ChunkForwardTsn(newCumulativeTsn: u32, streams: seq<ForwardTsnStream>)

  datatype Chunk =
    | Init(init: ChunkInit)
    | PayloadData(data: ChunkPayloadData)
    | SelectiveAck(sack: ChunkSelectiveAck)
    | Heartbeat(firstInfo: Option<seq<byte>>)  // the information of its first parameter, when that is a Heartbeat Info
    | HeartbeatAck(info: seq<byte>)
    | Abort(causeCodes: seq<u16>)
    | Shutdown(cumulativeTsnAck: u32)
    | ShutdownAck
    | OperationError(causeCodes: seq<u16>)
    | CookieEcho(cookie: seq<byte>)
    | CookieAck
    | ShutdownComplete
    | Reconfig(body: seq<byte>)
    | ForwardTsn(forwardTsn: ChunkForwardTsn)

  /** The type code a chunk carries on the wire. */
  function ChunkType(c: Chunk): byte {
    match c
    case Init(i) => if i.isAck then CT_INIT_ACK else CT_INIT
    case PayloadData(_) => CT_PAYLOAD_DATA
    case SelectiveAck(_) => CT_SACK
    case Heartbeat(_) => CT_HEARTBEAT
    case HeartbeatAck(_) => CT_HEARTBEAT_ACK
    case Abort(_) => CT_ABORT
    case Shutdown(_) => CT_SHUTDOWN
    case ShutdownAck => CT_SHUTDOWN_ACK
    case OperationError(_) => CT_ERROR
    case CookieEcho(_) => CT_COOKIE_ECHO
    case CookieAck => CT_COOKIE_ACK
    case ShutdownComplete => CT_SHUTDOWN_COMPLETE
    case Reconfig(_) => CT_RECONFIG
    case ForwardTsn(_) => CT_FORWARD_TSN
  }

  /** The Supported Extensions parameter this endpoint adds to its INIT and INIT ACK. */
  const OWN_SUPPORTED_EXTENSIONS: Param := SupportedExtensions([CT_RECONFIG, CT_FORWARD_TSN])

  /** Does some Supported Extensions parameter list FORWARD TSN? */
  predicate AdvertisesForwardTsn(params: seq<Param>) {
    exists k :: 0 <= k < |params| && params[k].SupportedExtensions? && CT_FORWARD_TSN in params[k].chunkTypes
  }

  /** The position of the last State Cookie parameter in `params`, or -1 when there is none. */
  function LastStateCookieIndex(params: seq<Param>): (k: int)
    ensures -1 <= k < |params|
    ensures k >= 0 ==> params[k].StateCookie?
    ensures forall j :: k < j < |params| ==> !params[j].StateCookie?
  {
    if params == [] then -1
    else if params[|params| - 1].StateCookie? then |params| - 1
    else LastStateCookieIndex(params[..|params| - 1])
  }

  /** The last State Cookie parameter in `params`, if any (a later one overrides an earlier one). */
  function LastStateCookie(params: seq<Param>): (r: Option<seq<byte>>)
    ensures r.None? <==> forall k :: 0 <= k < |params| ==> !params[k].StateCookie?
    ensures r.Some? ==> exists k :: 0 <= k < |params| && params[k] == StateCookie(r.value)
                          && forall j :: k < j < |params| ==> !params[j].StateCookie?
  {
    var k := LastStateCookieIndex(params);
    if k < 0 then None else Some(params[k].cookie)
  }

  /** Looking at one more parameter adds exactly that parameter's own advertisement. */
  lemma AdvertisesForwardTsnStep(params: seq<Param>, k: nat)
    requires k < |params|
    ensures AdvertisesForwardTsn(params[..k + 1]) <==>
              AdvertisesForwardTsn(params[..k]) || (params[k].SupportedExtensions? && CT_FORWARD_TSN in params[k].chunkTypes)
  {
    var q := params[..k + 1];
    assert forall j :: 0 <= j < k ==> q[j] == params[..k][j];
    assert q[k] == params[k];
  }

  /** A later State Cookie parameter overrides every earlier one. */
  lemma LastStateCookieStep(params: seq<Param>, k: nat)
    requires k < |params|
    ensures LastStateCookie(params[..k + 1]) ==
              if params[k].StateCookie? then Some(params[k].cookie) else LastStateCookie(params[..k])
  {
    assert params[..k + 1][..k] == params[..k];
  }
}
