/**
 * Bundling DATA chunks into packets bounded by the path MTU (section 6.1
 * of RFC 4960: bundled DATA chunks must not make a packet exceed the MTU).
 * The source's loop is modelled as written, next to a corrected loop that
 * counts each chunk's header and padding before deciding to bundle it.
 */
module Bundling {
  import opened Serial
  import opened Chunks
  import opened Congestion
  import opened Packets

  /** Bytes a DATA chunk takes in a packet: DATA header, user data and padding to 4. */
  function DataChunkWireSize(c: ChunkPayloadData): nat {
    DATA_CHUNK_HEADER_SIZE + |c.userData| + PaddingSize(|c.userData|)
  }

  /** Bytes of a packet carrying these DATA chunks. */
  function WireSize(cs: seq<ChunkPayloadData>): nat {
    if cs == [] then COMMON_HEADER_SIZE else WireSize(cs[..|cs| - 1]) + DataChunkWireSize(cs[|cs| - 1])
  }

  function Flatten(groups: seq<seq<ChunkPayloadData>>): seq<ChunkPayloadData> {
    if groups == [] then [] else Flatten(groups[..|groups| - 1]) + groups[|groups| - 1]
  }

  function DataChunks(cs: seq<ChunkPayloadData>): (r: seq<Chunk>)
    ensures |r| == |cs| && forall i :: 0 <= i < |cs| ==> r[i] == PayloadData(cs[i])
  {
    seq(|cs|, i requires 0 <= i < |cs| => PayloadData(cs[i]))
  }

  /** `create_packet` for each group of chunks, all with the association's header. */
  function ToPackets(header: CommonHeader, groups: seq<seq<ChunkPayloadData>>): (r: seq<Packet>)
    ensures |r| == |groups| && forall i :: 0 <= i < |groups| ==> r[i] == Packet(header, DataChunks(groups[i]))
  {
    seq(|groups|, i requires 0 <= i < |groups| => Packet(header, DataChunks(groups[i])))
  }

  /** The loop's state: packets closed so far, the chunks of the open packet, and its byte count. */
  datatype Progress = Progress(closed: seq<seq<ChunkPayloadData>>, open: seq<ChunkPayloadData>, bytes: nat)

  const START: Progress := Progress([], [], COMMON_HEADER_SIZE)

  /** The packets once the loop is done: the open packet is kept only if it holds a chunk. */
  function Finish(p: Progress): seq<seq<ChunkPayloadData>> {
    if p.open != [] then p.closed + [p.open] else p.closed
  }

  // ---------------------------------------------------------------------
  // As written: the bound is tested against the user data length alone,
  // and a packet is closed even when it holds no chunk yet.

  function AsWrittenStep(p: Progress, c: ChunkPayloadData, mtu: nat): Progress {
    var q := if p.bytes + |c.userData| > mtu then Progress(p.closed + [p.open], [], COMMON_HEADER_SIZE) else p;
    q.(open := q.open + [c], bytes := q.bytes + DATA_CHUNK_HEADER_SIZE + |c.userData|)
  }

  function AsWrittenRun(cs: seq<ChunkPayloadData>, mtu: nat): Progress {
    if cs == [] then START else AsWrittenStep(AsWrittenRun(cs[..|cs| - 1], mtu), cs[|cs| - 1], mtu)
  }

  /** `bundle_data_chunks_into_packets` as the source writes it. */
  method BundleDataChunksIntoPacketsAsWritten(chunks: seq<ChunkPayloadData>, mtu: nat, header: CommonHeader)
    returns (packets: seq<Packet>)
    ensures packets == ToPackets(header, Finish(AsWrittenRun(chunks, mtu)))
  {
    ghost var groups: seq<seq<ChunkPayloadData>> := [];
    packets := [];
    var chunksToSend: seq<ChunkPayloadData> := [];
    var bytesInPacket: nat := COMMON_HEADER_SIZE;
    var i := 0;
    while i < |chunks|
      invariant 0 <= i <= |chunks|
      invariant Progress(groups, chunksToSend, bytesInPacket) == AsWrittenRun(chunks[..i], mtu)
      invariant packets == ToPackets(header, groups)
    {
      var c := chunks[i];
      assert chunks[..i + 1][..i] == chunks[..i];
      if bytesInPacket + |c.userData| > mtu {
        packets := packets + [Packet(header, DataChunks(chunksToSend))];
        groups := groups + [chunksToSend];
        chunksToSend := [];
        bytesInPacket := COMMON_HEADER_SIZE;
      }
      bytesInPacket := bytesInPacket + DATA_CHUNK_HEADER_SIZE + |c.userData|;
      chunksToSend := chunksToSend + [c];
      i := i + 1;
    }
    assert chunks[..|chunks|] == chunks;
    if chunksToSend != [] {
      packets := packets + [Packet(header, DataChunks(chunksToSend))];
      groups := groups + [chunksToSend];
    }
  }

  /** The source's loop keeps every chunk, in order. */
  lemma {:induction false} AsWrittenRunKeepsOrder(cs: seq<ChunkPayloadData>, mtu: nat)
    ensures Flatten(AsWrittenRun(cs, mtu).closed) + AsWrittenRun(cs, mtu).open == cs
  {
    if cs != [] {
      var init, c := cs[..|cs| - 1], cs[|cs| - 1];
      AsWrittenRunKeepsOrder(init, mtu);
      var p := AsWrittenRun(init, mtu);
      AsWrittenStepKeepsOrder(p, c, mtu);
      assert AsWrittenRun(cs, mtu) == AsWrittenStep(p, c, mtu);
      InitLast(cs);
    }
  }

  lemma AsWrittenStepKeepsOrder(p: Progress, c: ChunkPayloadData, mtu: nat)
    ensures var q := AsWrittenStep(p, c, mtu);
            Flatten(q.closed) + q.open == Flatten(p.closed) + p.open + [c]
  {
    if p.bytes + |c.userData| > mtu {
      FlattenSnoc(p.closed, p.open);
      assert [] + [c] == [c];
    }
  }

  lemma AsWrittenKeepsOrder(cs: seq<ChunkPayloadData>, mtu: nat)
    ensures Flatten(Finish(AsWrittenRun(cs, mtu))) == cs
  {
    AsWrittenRunKeepsOrder(cs, mtu);
    var p := AsWrittenRun(cs, mtu);
    if p.open != [] {
      assert (p.closed + [p.open])[..|p.closed|] == p.closed;
    }
  }

  function Chunk600(): ChunkPayloadData {
    ChunkPayloadData(1, 0, 0, false, true, true, false, seq(600, _ => 0), false, false, false, 0, 0)
  }

  /**
   * With an MTU of 1228 (DATA payloads of up to 1200 bytes), two chunks of
   * 600 bytes pass the source's test, 12 + 16 + 600 + 600 <= 1228, and go
   * into one packet of 12 + 2 * (16 + 600) = 1244 bytes.
   */
  lemma AsWrittenExceedsMtu()
    ensures Finish(AsWrittenRun([Chunk600(), Chunk600()], 1228)) == [[Chunk600(), Chunk600()]]
    ensures WireSize([Chunk600(), Chunk600()]) == 1244
  {
    var c := Chunk600();
    assert |c.userData| == 600;
    assert [c, c][..1] == [c] && [c][..0] == [];
    assert AsWrittenRun([c], 1228) == Progress([], [c], 628);
    assert AsWrittenRun([c, c], 1228) == Progress([], [c, c], 1244);
    assert WireSize([c]) == 628;
  }

  /**
   * A chunk that alone passes the bound test is preceded by an empty packet:
   * with an MTU of 1228, a first chunk of 1217 bytes of user data gives
   * 12 + 1217 > 1228, and the source closes the still-empty packet first.
   */
  lemma AsWrittenEmptyPacket()
    ensures var c := Chunk600().(userData := seq(1217, _ => 0));
      Finish(AsWrittenRun([c], 1228)) == [[], [c]]
  {
    var c := Chunk600().(userData := seq(1217, _ => 0));
    assert |c.userData| == 1217;
    assert [c][..0] == [];
    assert AsWrittenRun([c], 1228) == AsWrittenStep(START, c, 1228);
    assert AsWrittenRun([c], 1228) == Progress([[]], [c], 12 + 16 + 1217);
  }

  // ---------------------------------------------------------------------
  // Corrected: a chunk joins the open packet only when the packet, with
  // that chunk's header and padding, stays within the MTU; an empty open
  // packet always takes the next chunk.

  function CorrectedStep(p: Progress, c: ChunkPayloadData, mtu: nat): Progress {
    var q := if p.open != [] && p.bytes + DataChunkWireSize(c) > mtu then Progress(p.closed + [p.open], [], COMMON_HEADER_SIZE) else p;
    q.(open := q.open + [c], bytes := q.bytes + DataChunkWireSize(c))
  }

  function CorrectedRun(cs: seq<ChunkPayloadData>, mtu: nat): Progress {
    if cs == [] then START else CorrectedStep(CorrectedRun(cs[..|cs| - 1], mtu), cs[|cs| - 1], mtu)
  }

  /** A packet fits the MTU, or it is a single chunk too large to share a packet. */
  predicate Fits(g: seq<ChunkPayloadData>, mtu: nat) {
    |g| <= 1 || WireSize(g) <= mtu
  }

  /**
   * Closed packets are non-empty and fit, and each was closed because the
   * first chunk of the packet after it would not have fitted in it.
   */
  ghost predicate Packed(gs: seq<seq<ChunkPayloadData>>, mtu: nat) {
    (forall i :: 0 <= i < |gs| ==> gs[i] != [] && Fits(gs[i], mtu))
    && (forall i :: 0 <= i < |gs| - 1 ==> WireSize(gs[i]) + DataChunkWireSize(gs[i + 1][0]) > mtu)
  }

  /** The shape the corrected loop keeps, with the open packet's byte count equal to its wire size. */
  ghost predicate WellBundled(p: Progress, mtu: nat) {
    p.bytes == WireSize(p.open)
    && Fits(p.open, mtu)
    && Packed(p.closed, mtu)
    && (p.closed != [] ==> p.open != [] && WireSize(p.closed[|p.closed| - 1]) + DataChunkWireSize(p.open[0]) > mtu)
  }

  lemma WireSizeSnoc(g: seq<ChunkPayloadData>, c: ChunkPayloadData)
    ensures WireSize(g + [c]) == WireSize(g) + DataChunkWireSize(c)
  {
    assert (g + [c])[..|g|] == g;
  }

  /** Closing a non-empty fitting packet whose successor's first chunk would not fit keeps the packets packed. */
  lemma PackedSnoc(gs: seq<seq<ChunkPayloadData>>, g: seq<ChunkPayloadData>, mtu: nat)
    requires Packed(gs, mtu) && g != [] && Fits(g, mtu)
    requires gs != [] ==> WireSize(gs[|gs| - 1]) + DataChunkWireSize(g[0]) > mtu
    ensures Packed(gs + [g], mtu)
  {
    var r := gs + [g];
    assert forall i :: 0 <= i < |gs| ==> r[i] == gs[i];
  }

  lemma FlattenSnoc(gs: seq<seq<ChunkPayloadData>>, g: seq<ChunkPayloadData>)
    ensures Flatten(gs + [g]) == Flatten(gs) + g
  {
    assert (gs + [g])[..|gs|] == gs;
  }

  lemma CorrectedStepKeepsShape(p: Progress, c: ChunkPayloadData, mtu: nat)
    requires WellBundled(p, mtu)
    ensures WellBundled(CorrectedStep(p, c, mtu), mtu)
    ensures Flatten(CorrectedStep(p, c, mtu).closed) + CorrectedStep(p, c, mtu).open == Flatten(p.closed) + p.open + [c]
  {
    if p.open != [] && p.bytes + DataChunkWireSize(c) > mtu {
      CloseAndOpen(p, c, mtu);
    } else {
      JoinOpen(p, c, mtu);
    }
  }

  /** The next chunk does not fit: the open packet is closed and the chunk opens the next one. */
  lemma CloseAndOpen(p: Progress, c: ChunkPayloadData, mtu: nat)
    requires WellBundled(p, mtu) && p.open != [] && p.bytes + DataChunkWireSize(c) > mtu
    ensures CorrectedStep(p, c, mtu) == Progress(p.closed + [p.open], [c], WireSize([c]))
    ensures WellBundled(Progress(p.closed + [p.open], [c], WireSize([c])), mtu)
    ensures Flatten(p.closed + [p.open]) + [c] == Flatten(p.closed) + p.open + [c]
  {
    WireSizeSnoc([], c);
    assert [] + [c] == [c];
    PackedSnoc(p.closed, p.open, mtu);
    FlattenSnoc(p.closed, p.open);
  }

  /** The next chunk fits, or the open packet is empty: the chunk joins the open packet. */
  lemma JoinOpen(p: Progress, c: ChunkPayloadData, mtu: nat)
    requires WellBundled(p, mtu) && !(p.open != [] && p.bytes + DataChunkWireSize(c) > mtu)
    ensures CorrectedStep(p, c, mtu) == Progress(p.closed, p.open + [c], p.bytes + DataChunkWireSize(c))
    ensures WellBundled(Progress(p.closed, p.open + [c], p.bytes + DataChunkWireSize(c)), mtu)
  {
    WireSizeSnoc(p.open, c);
    if p.open != [] {
      assert (p.open + [c])[0] == p.open[0];
    } else {
      assert p.open + [c] == [c];
    }
  }

  lemma {:induction false} CorrectedRunShape(cs: seq<ChunkPayloadData>, mtu: nat)
    ensures WellBundled(CorrectedRun(cs, mtu), mtu)
    ensures Flatten(CorrectedRun(cs, mtu).closed) + CorrectedRun(cs, mtu).open == cs
  {
    if cs != [] {
      var init, c := cs[..|cs| - 1], cs[|cs| - 1];
      var p := CorrectedRun(init, mtu);
      CorrectedRunShape(init, mtu);
      CorrectedStepKeepsShape(p, c, mtu);
      assert CorrectedRun(cs, mtu) == CorrectedStep(p, c, mtu);
      InitLast(cs);
    }
  }

  lemma InitLast(cs: seq<ChunkPayloadData>)
    requires cs != []
    ensures cs[..|cs| - 1] + [cs[|cs| - 1]] == cs
  {
  }

  /**
   * The corrected bundling keeps every chunk in order, makes no empty
   * packet, keeps every packet within the MTU unless it is one chunk that
   * alone exceeds it, and starts a new packet only when the next chunk
   * would not fit in the current one.
   */
  lemma CorrectedBundling(cs: seq<ChunkPayloadData>, mtu: nat)
    ensures Flatten(Finish(CorrectedRun(cs, mtu))) == cs
    ensures Packed(Finish(CorrectedRun(cs, mtu)), mtu)
  {
    CorrectedRunShape(cs, mtu);
    var p := CorrectedRun(cs, mtu);
    if p.open != [] {
      PackedSnoc(p.closed, p.open, mtu);
      FlattenSnoc(p.closed, p.open);
    }
  }

  /** `bundle_data_chunks_into_packets` with the corrected test. */
  method BundleDataChunksIntoPackets(chunks: seq<ChunkPayloadData>, mtu: nat, header: CommonHeader)
    returns (packets: seq<Packet>)
    ensures packets == ToPackets(header, Finish(CorrectedRun(chunks, mtu)))
  {
    ghost var groups: seq<seq<ChunkPayloadData>> := [];
    packets := [];
    var chunksToSend: seq<ChunkPayloadData> := [];
    var bytesInPacket: nat := COMMON_HEADER_SIZE;
    var i := 0;
    while i < |chunks|
      invariant 0 <= i <= |chunks|
      invariant Progress(groups, chunksToSend, bytesInPacket) == CorrectedRun(chunks[..i], mtu)
      invariant packets == ToPackets(header, groups)
    {
      var c := chunks[i];
      assert chunks[..i + 1][..i] == chunks[..i];
      var size := DATA_CHUNK_HEADER_SIZE + |c.userData| + PaddingSize(|c.userData|);
      if chunksToSend != [] && bytesInPacket + size > mtu {
        packets := packets + [Packet(header, DataChunks(chunksToSend))];
        groups := groups + [chunksToSend];
        chunksToSend := [];
        bytesInPacket := COMMON_HEADER_SIZE;
      }
      bytesInPacket := bytesInPacket + size;
      chunksToSend := chunksToSend + [c];
      i := i + 1;
    }
    assert chunks[..|chunks|] == chunks;
    if chunksToSend != [] {
      packets := packets + [Packet(header, DataChunks(chunksToSend))];
      groups := groups + [chunksToSend];
    }
  }
}
