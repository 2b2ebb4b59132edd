/**
 * What processing a SACK does to the in-flight queue (section 6.2.1 of
 * RFC 4960), stated as folds over the chunks and TSNs it visits in the
 * order the association's loops visit them: the chunks the cumulative
 * TSN ack pops, and the TSNs the gap ack blocks cover.
 */
module SackScans {
  import opened Serial
  import opened Chunks
  import opened PayloadQueues
  import opened StreamBytes

  /** The chunk as a gap ack block leaves it: acknowledged once, untouched after. */
  function AckOf(c: ChunkPayloadData): (r: ChunkPayloadData)
    ensures r.acked && r.tsn == c.tsn && r.streamIdentifier == c.streamIdentifier && r.nsent == c.nsent
    ensures c.acked ==> r == c
    ensures !c.acked ==> r.userData == [] && !r.retransmit
  {
    if c.acked then c else Acknowledged(c)
  }

  /** Bytes a run of chunks acknowledges on each stream: the data of each chunk not acknowledged before. */
  function AckedPerStream(cs: seq<ChunkPayloadData>): map<u16, nat>
    decreases |cs|
  {
    if cs == [] then map[]
    else
      var m := AckedPerStream(cs[..|cs| - 1]);
      var c := cs[|cs| - 1];
      if c.acked then m else Credit(m, c.streamIdentifier, |c.userData|)
  }

  /** The total user data of the chunks of `cs` not acknowledged before. */
  function NewlyAckedBytes(cs: seq<ChunkPayloadData>): nat
    decreases |cs|
  {
    if cs == [] then 0
    else NewlyAckedBytes(cs[..|cs| - 1]) + (if cs[|cs| - 1].acked then 0 else |cs[|cs| - 1].userData|)
  }

  /** The per-stream counts add up to the newly acknowledged bytes. */
  lemma {:induction false} AckedPerStreamTotal(cs: seq<ChunkPayloadData>)
    ensures Total(AckedPerStream(cs)) == NewlyAckedBytes(cs)
    decreases |cs|
  {
    if cs == [] {
      TotalEmpty(AckedPerStream(cs));
    } else {
      var c := cs[|cs| - 1];
      AckedPerStreamTotal(cs[..|cs| - 1]);
      TotalCredit(AckedPerStream(cs[..|cs| - 1]), c.streamIdentifier, |c.userData|);
    }
  }

  /** The total length of the user data of `cs`. */
  function DataLength(cs: seq<ChunkPayloadData>): nat
    decreases |cs|
  {
    if cs == [] then 0 else DataLength(cs[..|cs| - 1]) + |cs[|cs| - 1].userData|
  }

  /** When acknowledged chunks hold no data, the newly acknowledged bytes are all the bytes of the run. */
  lemma {:induction false} NewlyAckedIsAllData(cs: seq<ChunkPayloadData>)
    requires forall j :: 0 <= j < |cs| ==> cs[j].acked ==> cs[j].userData == []
    ensures NewlyAckedBytes(cs) == DataLength(cs)
    decreases |cs|
  {
    if cs != [] {
      var p := cs[..|cs| - 1];
      assert forall j :: 0 <= j < |p| ==> p[j] == cs[j];
      NewlyAckedIsAllData(p);
    }
  }

  /**
   * Where the cumulative ack leaves `min_tsn2measure_rtt`: a chunk sent
   * once, newly acknowledged and at or after the mark moves it to `next`
   * (Karn's rule, section 6.3.1 C5 of RFC 4960).
   */
  function RttMarkAfter(cs: seq<ChunkPayloadData>, mark: u32, next: u32): u32
    decreases |cs|
  {
    if cs == [] then mark
    else
      var m := RttMarkAfter(cs[..|cs| - 1], mark, next);
      var c := cs[|cs| - 1];
      if !c.acked && c.nsent == 1 && Gte32(c.tsn, m) then next else m
  }

  /** The mark either stays or becomes `next`, and it stays when no chunk was sent exactly once. */
  lemma {:induction false} RttMarkAfterValues(cs: seq<ChunkPayloadData>, mark: u32, next: u32)
    ensures RttMarkAfter(cs, mark, next) == mark || RttMarkAfter(cs, mark, next) == next
    ensures (forall j :: 0 <= j < |cs| ==> cs[j].acked || cs[j].nsent != 1) ==> RttMarkAfter(cs, mark, next) == mark
    decreases |cs|
  {
    if cs != [] {
      var p := cs[..|cs| - 1];
      RttMarkAfterValues(p, mark, next);
      assert forall j :: 0 <= j < |p| ==> p[j] == cs[j];
    }
  }

  /** The TSNs a gap ack block covers, each its offset past the cumulative TSN ack, wrapping. */
  function BlockTsns(cumulativeTsnAck: u32, g: GapAckBlock): (ts: seq<u32>)
    ensures |ts| == if g.start <= g.end then g.end - g.start + 1 else 0
    ensures forall j :: 0 <= j < |ts| ==> ts[j] == Add32(cumulativeTsnAck, g.start + j)
  {
    if g.start <= g.end then seq<u32>(g.end - g.start + 1, j requires 0 <= j => Add32(cumulativeTsnAck, g.start + j)) else []
  }

  /** The TSNs the gap ack blocks cover, block by block. */
  function GapTsns(cumulativeTsnAck: u32, blocks: seq<GapAckBlock>): seq<u32>
    decreases |blocks|
  {
    if blocks == [] then []
    else GapTsns(cumulativeTsnAck, blocks[..|blocks| - 1]) + BlockTsns(cumulativeTsnAck, blocks[|blocks| - 1])
  }

  /** The in-flight chunks, the bytes acked per stream, the RTT mark and the highest TSN newly acknowledged. */
  datatype GapScan = GapScan(chunks: map<u32, ChunkPayloadData>, bytes: map<u16, nat>, rttMark: u32, htna: u32)

  /**
   * One TSN of a gap ack block: a chunk not yet acknowledged is marked
   * acknowledged, its bytes are credited to its stream, it moves the RTT
   * mark when sent once, and it becomes the HTNA when serially later.
   */
  function GapStep(s: GapScan, t: u32, next: u32): GapScan {
    if t !in s.chunks || s.chunks[t].acked then s
    else
      var c := s.chunks[t];
      GapScan(s.chunks[t := Acknowledged(c)], Credit(s.bytes, c.streamIdentifier, |c.userData|),
              if c.nsent == 1 then next else s.rttMark, if Lt32(s.htna, t) then t else s.htna)
  }

  function GapFold(ts: seq<u32>, s: GapScan, next: u32): GapScan
    decreases |ts|
  {
    if ts == [] then s else GapStep(GapFold(ts[..|ts| - 1], s, next), ts[|ts| - 1], next)
  }

  /**
   * The gap blocks leave every in-flight chunk they cover acknowledged and
   * every other chunk as it was, and they never add or drop a chunk.
   */
  lemma {:induction false} GapFoldAcknowledges(ts: seq<u32>, s: GapScan, next: u32)
    ensures GapFold(ts, s, next).chunks.Keys == s.chunks.Keys
    ensures forall k :: k in s.chunks ==>
              GapFold(ts, s, next).chunks[k] == if k in ts then AckOf(s.chunks[k]) else s.chunks[k]
    decreases |ts|
  {
    if ts != [] {
      var p := ts[..|ts| - 1];
      var t := ts[|ts| - 1];
      GapFoldAcknowledges(p, s, next);
      assert forall k :: k in ts <==> k in p || k == t;
    }
  }

  /** The HTNA ends as its start or as one of the covered TSNs, and the RTT mark as its start or `next`. */
  lemma {:induction false} GapFoldMarks(ts: seq<u32>, s: GapScan, next: u32)
    ensures GapFold(ts, s, next).htna == s.htna || GapFold(ts, s, next).htna in ts
    ensures GapFold(ts, s, next).rttMark == s.rttMark || GapFold(ts, s, next).rttMark == next
    decreases |ts|
  {
    if ts != [] {
      GapFoldMarks(ts[..|ts| - 1], s, next);
    }
  }

  /** Scanning one more TSN is one more `GapStep`, over the same chunks. */
  lemma GapFoldNext(ts: seq<u32>, j: nat, s: GapScan, next: u32)
    requires j < |ts|
    ensures GapFold(ts[..j], s, next).chunks.Keys == s.chunks.Keys
    ensures GapFold(ts[..j + 1], s, next) == GapStep(GapFold(ts[..j], s, next), ts[j], next)
  {
    GapFoldAcknowledges(ts[..j], s, next);
    assert ts[..j + 1][..j] == ts[..j];
  }

  /** The next TSN of a gap ack block, from where the scan of the block's TSNs so far left `s`. */
  lemma GapBlockNext(cumulativeTsnAck: u32, g: GapAckBlock, k: int, s0: GapScan, s: GapScan, next: u32)
    requires g.start <= k <= g.end
    requires s == GapFold(BlockTsns(cumulativeTsnAck, g)[..k - g.start], s0, next)
    ensures BlockTsns(cumulativeTsnAck, g)[k - g.start] == Add32(cumulativeTsnAck, k)
    ensures GapFold(BlockTsns(cumulativeTsnAck, g)[..k - g.start + 1], s0, next) == GapStep(s, Add32(cumulativeTsnAck, k), next)
  {
    GapFoldNext(BlockTsns(cumulativeTsnAck, g), k - g.start, s0, next);
  }

  /** Part way through a gap ack block, the scan still has the chunks it started with. */
  lemma GapBlockKeys(cumulativeTsnAck: u32, g: GapAckBlock, k: int, s0: GapScan, s: GapScan, next: u32)
    requires g.start <= k <= g.end
    requires s == GapFold(BlockTsns(cumulativeTsnAck, g)[..k - g.start], s0, next)
    ensures s.chunks.Keys == s0.chunks.Keys
  {
    GapFoldAcknowledges(BlockTsns(cumulativeTsnAck, g)[..k - g.start], s0, next);
  }

  /**
   * No byte is lost or counted twice: what leaves the outstanding bytes of
   * the chunks under `keys` is credited to exactly one stream.
   */
  lemma {:induction false} GapFoldConserves(keys: seq<u32>, ts: seq<u32>, s: GapScan, next: u32)
    requires NoDuplicates(keys) && forall k :: k in keys <==> k in s.chunks
    ensures Total(GapFold(ts, s, next).bytes) + BytesOf(keys, GapFold(ts, s, next).chunks)
              == Total(s.bytes) + BytesOf(keys, s.chunks)
    decreases |ts|
  {
    if ts != [] {
      var p := ts[..|ts| - 1];
      GapFoldConserves(keys, p, s, next);
      GapFoldAcknowledges(p, s, next);
      GapStepConserves(keys, GapFold(p, s, next), ts[|ts| - 1], next);
    }
  }

  lemma GapStepConserves(keys: seq<u32>, s: GapScan, t: u32, next: u32)
    requires NoDuplicates(keys) && forall k :: k in keys <==> k in s.chunks
    ensures Total(GapStep(s, t, next).bytes) + BytesOf(keys, GapStep(s, t, next).chunks)
              == Total(s.bytes) + BytesOf(keys, s.chunks)
  {
    if t in s.chunks && !s.chunks[t].acked {
      var c := s.chunks[t];
      BytesOfUpdate(keys, s.chunks, t, Acknowledged(c));
      TotalCredit(s.bytes, c.streamIdentifier, |c.userData|);
    }
  }
  /** Scanning one list of TSNs after another is scanning them joined. */
  lemma {:induction false} GapFoldAppend(a: seq<u32>, b: seq<u32>, s: GapScan, next: u32)
    ensures GapFold(a + b, s, next) == GapFold(b, GapFold(a, s, next), next)
    decreases |b|
  {
    if b == [] {
      assert a + b == a;
    } else {
      var b' := b[..|b| - 1];
      assert (a + b)[..|a + b| - 1] == a + b';
      assert (a + b)[|a + b| - 1] == b[|b| - 1];
      GapFoldAppend(a, b', s, next);
    }
  }

  lemma GapTsnsStep(cumulativeTsnAck: u32, blocks: seq<GapAckBlock>, b: nat)
    requires b < |blocks|
    ensures GapTsns(cumulativeTsnAck, blocks[..b + 1]) == GapTsns(cumulativeTsnAck, blocks[..b]) + BlockTsns(cumulativeTsnAck, blocks[b])
  {
    assert blocks[..b + 1][..b] == blocks[..b];
  }

  /** The TSNs of the first `b` blocks are where the TSNs of all blocks start. */
  lemma {:induction false} GapTsnsPrefix(cumulativeTsnAck: u32, blocks: seq<GapAckBlock>, b: nat)
    requires b <= |blocks|
    ensures var prefix, all := GapTsns(cumulativeTsnAck, blocks[..b]), GapTsns(cumulativeTsnAck, blocks);
            |prefix| <= |all| && forall j :: 0 <= j < |prefix| ==> prefix[j] == all[j]
    decreases |blocks| - b
  {
    if b == |blocks| {
      assert blocks[..b] == blocks;
    } else {
      GapTsnsPrefix(cumulativeTsnAck, blocks, b + 1);
      GapTsnsStep(cumulativeTsnAck, blocks, b);
    }
  }
}
