/**
 * The association: the transmission control block of section 13.2 of
 * RFC 4960 together with the handlers that update it when chunks arrive,
 * when the application sends or shuts down, and when a retransmission
 * timer expires. Each handler is a method that changes only the fields
 * its `modifies` clause names, and its `ensures` give the new value of
 * each of them.
 *
 * Timers are the set of running timer names; their deadlines, the RTO
 * and RTT measurement are not modelled. Streams are the number of bytes
 * each holds in its reassembly queue. The pending queue is a FIFO
 * sequence. Random values (the initial TSN, the state cookie) are
 * parameters.
 */
module Associations {
  import opened Serial
  import opened Errors
  import opened Chunks
  import opened Packets
  import opened PayloadQueues
  import opened GapAcks
  import opened Congestion
  import opened Bundling
  import opened AssociationStates
  import opened StreamBytes
  import opened TsnRuns
  import opened SackScans
  import opened FastRetransmit
  import opened Transmit

  /** The port both ends use until an INIT tells otherwise. */
  const INIT_PORT: u16 := 5000

  /** The cause code of an "Unrecognized Chunk Type" error (section 3.3.10.6 of RFC 4960). */
  const UNRECOGNIZED_CHUNK_TYPE: u16 := 6

  /** The INIT chunk a client first sends. */
  function ClientInit(tag: u32, rwnd: u32, outbound: u16, inbound: u16, tsn: u32): ChunkInit {
    ChunkInit(false, tag, rwnd, outbound, inbound, tsn, [OWN_SUPPORTED_EXTENSIONS])
  }

  /**
   * The queue lost its first `n` TSNs and nothing else changed: the state
   * the loops over `pop` leave.
   */
  ghost predicate DroppedHead(q: PayloadQueue, s0: seq<u32>, m0: map<u32, ChunkPayloadData>, n: nat)
    reads q
  {
    HeadDropped(q.sorted, q.chunkMap, s0, m0, n)
  }

  ghost predicate HeadDropped(sorted: seq<u32>, chunkMap: map<u32, ChunkPayloadData>, s0: seq<u32>, m0: map<u32, ChunkPayloadData>, n: nat) {
    n <= |s0| && sorted == s0[n..]
    && forall k :: k in chunkMap ==> k in m0 && chunkMap[k] == m0[k]
  }

  /** The part of the sender's state that processing a SACK's cumulative TSN ack changes. */
  datatype Outstanding = Outstanding(sorted: seq<u32>, chunkMap: map<u32, ChunkPayloadData>, nBytes: nat,
                                     rttMark: u32, inFastRecovery: bool, timers: set<Timer>)

  /**
   * The cumulative TSN ack has popped the chunks `popped`, the head of the
   * in-flight queue in `s0`, leaving `s`: their data left the outstanding
   * bytes and was credited to its stream (`bytes`), the RTT mark moved as
   * Karn's rule says, fast recovery ended if its exit point was among them,
   * and T3-rtx stopped if the first of them was newly acknowledged.
   */
  ghost predicate CumulativeFold(s0: Outstanding, s: Outstanding, popped: seq<ChunkPayloadData>, bytes: map<u16, nat>,
                                 next: u32, exitPoint: u32)
  {
    var p := |popped|;
    HeadDropped(s.sorted, s.chunkMap, s0.sorted, s0.chunkMap, p)
    && (forall j :: 0 <= j < p ==> s0.sorted[j] in s0.chunkMap && popped[j] == s0.chunkMap[s0.sorted[j]])
    && s.nBytes + DataLength(popped) == s0.nBytes
    && bytes == AckedPerStream(popped)
    && s.rttMark == RttMarkAfter(popped, s0.rttMark, next)
    && s.inFastRecovery == (s0.inFastRecovery && forall j :: 0 <= j < p ==> popped[j].tsn != exitPoint)
    && s.timers == (if p > 0 && !popped[0].acked then s0.timers - {T3Rtx} else s0.timers)
  }

  /** The in-flight queue starts with the TSNs after `cum` up to `target`, in order: the chunks a cumulative TSN ack pops. */
  ghost predicate HeadsRun(sorted: seq<u32>, cum: u32, target: u32) {
    var len := AckedRunLength(cum, target);
    len <= |sorted| && sorted[..len] == seq(len, (j: nat) => Add32(cum, j + 1))
  }

  /** A queue with the first `p` TSNs of the run at its head, and all of the run, heads it. */
  lemma HeadsRunAll(sorted: seq<u32>, cum: u32, target: u32, p: nat)
    requires p == AckedRunLength(cum, target) && p <= |sorted|
    requires forall j :: 0 <= j < p && j < |sorted| ==> sorted[j] == Add32(cum, j + 1)
    ensures HeadsRun(sorted, cum, target)
  {
  }

  /**
   * The state of the cumulative-ack loop after `p` pops: `i` is the next
   * TSN of the run, the loop guard holds while the run is not exhausted,
   * and the first `p` TSNs of the run head the queue.
   */
  ghost predicate RunPrefix(sorted: seq<u32>, cum: u32, target: u32, p: nat, i: u32) {
    var len := AckedRunLength(cum, target);
    p <= len && i == Add32(cum, p + 1) && (Lte32(i, target) <==> p < len)
    && forall j :: 0 <= j < p && j < |sorted| ==> sorted[j] == Add32(cum, j + 1)
  }

  /**
   * A pop that finds the run's next TSN at entry `p` extends the prefix by
   * one; a queue whose entry `p` is anything else does not head the run.
   */
  lemma RunPrefixStep(sorted: seq<u32>, cum: u32, target: u32, p: nat, i: u32)
    requires RunPrefix(sorted, cum, target, p, i) && Lte32(i, target)
    ensures Add32(cum, p + 1) == Add32(cum, 1) <==> p == 0
    ensures (p < |sorted| && sorted[p] == i) ==> RunPrefix(sorted, cum, target, p + 1, Add32(i, 1))
    ensures !(p < |sorted| && sorted[p] == i) ==> !HeadsRun(sorted, cum, target)
  {
    AckedRunNext(cum, target, p);
  }

  /** Every TSN of `ts` names a chunk in flight. */
  ghost predicate AllInFlight(ts: seq<u32>, chunks: map<u32, ChunkPayloadData>) {
    forall j :: 0 <= j < |ts| ==> ts[j] in chunks
  }

  /**
   * `s'` is `s` with its head chunk popped by the cumulative-ack loop: the
   * chunk's data leaves the outstanding bytes and, when newly acknowledged,
   * is credited to its stream and may move the RTT mark (and stop T3-rtx
   * when `first`); fast recovery ends at its exit point.
   */
  ghost predicate PoppedHead(s: Outstanding, s': Outstanding, bytes: map<u16, nat>, bytes': map<u16, nat>,
                             next: u32, exitPoint: u32, first: bool) {
    |s.sorted| > 0 && s.sorted[0] in s.chunkMap
    && var c := s.chunkMap[s.sorted[0]];
       s'.sorted == s.sorted[1..] && s'.chunkMap == s.chunkMap - {s.sorted[0]}
       && s'.nBytes + |c.userData| == s.nBytes
       && bytes' == (if c.acked then bytes else Credit(bytes, c.streamIdentifier, |c.userData|))
       && s'.rttMark == (if !c.acked && c.nsent == 1 && Gte32(c.tsn, s.rttMark) then next else s.rttMark)
       && s'.inFastRecovery == (s.inFastRecovery && c.tsn != exitPoint)
       && s'.timers == (if first && !c.acked then s.timers - {T3Rtx} else s.timers)
  }

  /** Popping the head chunk `c` as one step of the cumulative-ack loop does extends the fold by `c`. */
  lemma CumulativeFoldStep(s0: Outstanding, s: Outstanding, popped: seq<ChunkPayloadData>, bytes: map<u16, nat>, next: u32, exitPoint: u32,
                           s': Outstanding, bytes': map<u16, nat>)
    requires CumulativeFold(s0, s, popped, bytes, next, exitPoint)
    requires PoppedHead(s, s', bytes, bytes', next, exitPoint, popped == [])
    ensures CumulativeFold(s0, s', popped + [s.chunkMap[s.sorted[0]]], bytes', next, exitPoint)
  {
    var p := |popped|;
    var c := s.chunkMap[s.sorted[0]];
    var q := popped + [c];
    CumulativelyAckedStep(popped, c, p, s0.rttMark, next);
    assert s0.sorted[p..][1..] == s0.sorted[p + 1..];
    assert forall j :: 0 <= j < p ==> q[j] == popped[j];
  }

  /**
   * The cumulative-ack loop after popping `popped` on its way from `cum`
   * to `target`: the TSNs popped are the first of the run and headed the
   * queue in `s0`, and `s` is what folding them left.
   */
  ghost predicate Popping(target: u32, i: u32, cum: u32, s0: Outstanding, s: Outstanding, popped: seq<ChunkPayloadData>,
                          bytes: map<u16, nat>, next: u32, exitPoint: u32) {
    RunPrefix(s0.sorted, cum, target, |popped|, i) && CumulativeFold(s0, s, popped, bytes, next, exitPoint)
  }

  /**
   * Inside the loop, `i` is the first TSN visited exactly when nothing was
   * popped yet, and the queue's head is `i` exactly when `i` is the next
   * TSN of the queue in `s0`; a head other than `i` means the queue did not
   * head the run.
   */
  lemma PoppingHead(target: u32, i: u32, cum: u32, s0: Outstanding, s: Outstanding, popped: seq<ChunkPayloadData>,
                    bytes: map<u16, nat>, next: u32, exitPoint: u32)
    requires Popping(target, i, cum, s0, s, popped, bytes, next, exitPoint) && Lte32(i, target)
    ensures i == Add32(cum, 1) <==> popped == []
    ensures !(|s.sorted| > 0 && s.sorted[0] == i) ==> !HeadsRun(s0.sorted, cum, target)
  {
    RunPrefixStep(s0.sorted, cum, target, |popped|, i);
    var p := |popped|;
    assert |s.sorted| > 0 ==> s.sorted[0] == s0.sorted[p];
  }

  /** Popping the head `i` moves the loop on to the next TSN with one more chunk folded. */
  lemma PoppingStep(target: u32, i: u32, cum: u32, s0: Outstanding, s: Outstanding, popped: seq<ChunkPayloadData>,
                    bytes: map<u16, nat>, next: u32, exitPoint: u32, s': Outstanding, bytes': map<u16, nat>)
    requires Popping(target, i, cum, s0, s, popped, bytes, next, exitPoint) && Lte32(i, target)
    requires PoppedHead(s, s', bytes, bytes', next, exitPoint, popped == []) && s.sorted[0] == i
    ensures Popping(target, Add32(i, 1), cum, s0, s', popped + [s.chunkMap[i]], bytes', next, exitPoint)
  {
    var p := |popped|;
    assert s.sorted[0] == s0.sorted[p];
    RunPrefixStep(s0.sorted, cum, target, p, i);
    CumulativeFoldStep(s0, s, popped, bytes, next, exitPoint, s', bytes');
  }

  /** Appending the chunk popped at step `p` extends each fold of the cumulative-ack loop by that chunk. */
  lemma CumulativelyAckedStep(popped: seq<ChunkPayloadData>, c: ChunkPayloadData, p: nat, mark: u32, next: u32)
    requires |popped| == p
    ensures var q := popped + [c];
            q[..p] == popped && q[p] == c
            && AckedPerStream(q) == (if c.acked then AckedPerStream(popped) else Credit(AckedPerStream(popped), c.streamIdentifier, |c.userData|))
            && DataLength(q) == DataLength(popped) + |c.userData|
            && RttMarkAfter(q, mark, next) ==
                 var m := RttMarkAfter(popped, mark, next); if !c.acked && c.nsent == 1 && Gte32(c.tsn, m) then next else m
  {
    assert (popped + [c])[..p] == popped;
  }

  /** Acknowledged chunks hold no data, as `mark_as_acked` leaves them. */
  ghost predicate AckedHoldNothing(m: map<u32, ChunkPayloadData>) {
    forall k :: k in m && m[k].acked ==> m[k].userData == []
  }

  /**
   * Processing a SACK loses no byte and counts none twice: the bytes it
   * acknowledges per stream and the bytes still outstanding add up to the
   * bytes outstanding before, provided acknowledged chunks held no data.
   */
  lemma SelectiveAckConserves(s0: Outstanding, mid: Outstanding, popped: seq<ChunkPayloadData>, bytes: map<u16, nat>,
                              next: u32, exitPoint: u32, ts: seq<u32>, htna: u32)
    requires CumulativeFold(s0, mid, popped, bytes, next, exitPoint)
    requires NoDuplicates(mid.sorted) && (forall k :: k in mid.sorted <==> k in mid.chunkMap)
    requires mid.nBytes == BytesOf(mid.sorted, mid.chunkMap)
    requires AckedHoldNothing(s0.chunkMap)
    ensures var fin := GapFold(ts, GapScan(mid.chunkMap, bytes, mid.rttMark, htna), next);
            Total(fin.bytes) + BytesOf(mid.sorted, fin.chunks) == s0.nBytes
            && AckedHoldNothing(fin.chunks)
  {
    CumulativeConserves(s0, mid, popped, bytes, next, exitPoint);
    GapsConserve(mid, bytes, next, ts, htna);
  }

  /** The cumulative half: what the popped chunks held left the outstanding bytes for the per-stream counts. */
  lemma CumulativeConserves(s0: Outstanding, mid: Outstanding, popped: seq<ChunkPayloadData>, bytes: map<u16, nat>,
                            next: u32, exitPoint: u32)
    requires CumulativeFold(s0, mid, popped, bytes, next, exitPoint)
    requires AckedHoldNothing(s0.chunkMap)
    ensures Total(bytes) + mid.nBytes == s0.nBytes && AckedHoldNothing(mid.chunkMap)
  {
    forall j | 0 <= j < |popped|
      ensures popped[j].acked ==> popped[j].userData == []
    {
      assert s0.sorted[j] in s0.chunkMap;
    }
    NewlyAckedIsAllData(popped);
    AckedPerStreamTotal(popped);
  }

  /** The gap half: what the gap ack blocks acknowledge leaves the outstanding bytes for the per-stream counts. */
  lemma GapsConserve(mid: Outstanding, bytes: map<u16, nat>, next: u32, ts: seq<u32>, htna: u32)
    requires NoDuplicates(mid.sorted) && (forall k :: k in mid.sorted <==> k in mid.chunkMap)
    requires mid.nBytes == BytesOf(mid.sorted, mid.chunkMap)
    requires AckedHoldNothing(mid.chunkMap)
    ensures var fin := GapFold(ts, GapScan(mid.chunkMap, bytes, mid.rttMark, htna), next);
            Total(fin.bytes) + BytesOf(mid.sorted, fin.chunks) == Total(bytes) + mid.nBytes
            && AckedHoldNothing(fin.chunks)
  {
    var start := GapScan(mid.chunkMap, bytes, mid.rttMark, htna);
    GapFoldConserves(mid.sorted, ts, start, next);
    GapFoldAcknowledges(ts, start, next);
  }

  /** The TSNs of the blocks so far and of the next block are all in flight exactly when each part is. */
  lemma GapBlockCovered(done: seq<u32>, block: seq<u32>, chunks0: map<u32, ChunkPayloadData>, chunks: map<u32, ChunkPayloadData>)
    requires chunks.Keys == chunks0.Keys
    requires forall j :: 0 <= j < |done| ==> done[j] in chunks0
    ensures (forall j :: 0 <= j < |done + block| ==> (done + block)[j] in chunks0)
            <==> (forall j :: 0 <= j < |block| ==> block[j] in chunks)
  {
    if !(forall j :: 0 <= j < |block| ==> block[j] in chunks) {
      var j :| 0 <= j < |block| && block[j] !in chunks;
      assert (done + block)[|done| + j] == block[j];
    }
  }
  /**
   * The TSNs from `tsn` on for `n` pending chunks are all free; sending the
   * first chunk under `tsn` leaves the rest of them free for the rest.
   */
  lemma SentTsnsStayFresh(tsn: u32, n: nat, m: map<u32, ChunkPayloadData>, c: ChunkPayloadData)
    requires 0 < n < TWO_32 && c.tsn == tsn
    requires forall k :: 0 <= k < n ==> Add32(tsn, k) !in m
    ensures tsn !in m
    ensures forall k :: 0 <= k < n - 1 ==> Add32(Add32(tsn, 1), k) !in m[tsn := c]
  {
    assert Add32(tsn, 0) == tsn;
    forall k | 0 <= k < n - 1
      ensures Add32(Add32(tsn, 1), k) !in m[tsn := c]
    {
      AddAdd(tsn, 1, k);
      assert Add32(tsn, k + 1) != tsn by {
        DistanceOfAdd(tsn, k + 1);
      }
    }
  }

  /**
   * `chunks` and `resets` were taken from the front of the drain of `p0`,
   * and the rest of it is the drain of what is still `pending`; the
   * in-flight chunks gained `chunks`, and the in-flight queue is `empty`
   * exactly when it was and none were sent.
   */
  ghost predicate DrainedSoFar(p0: seq<ChunkPayloadData>, b0: nat, cwnd: nat, r0: u32, t0: u32, m0: map<u32, ChunkPayloadData>,
                          empty0: bool, chunks: seq<ChunkPayloadData>, resets: seq<u16>,
                          pending: seq<ChunkPayloadData>, nBytes: nat, rwnd: u32, next: u32,
                          chunkMap: map<u32, ChunkPayloadData>, empty: bool) {
    Drain(p0, b0, cwnd, r0, t0) == Prepend(chunks, resets, Drain(pending, nBytes, cwnd, rwnd, next))
    && nBytes == b0 + DataLength(chunks)
    && next == Add32(t0, |chunks|)
    && chunkMap == Added(m0, chunks)
    && empty == (empty0 && chunks == [])
  }

  /** Sending the pending head that fits under the next TSN keeps the drain on track, one chunk further. */
  lemma DrainedSend(p0: seq<ChunkPayloadData>, b0: nat, cwnd: nat, r0: u32, t0: u32, m0: map<u32, ChunkPayloadData>,
                    empty0: bool, chunks: seq<ChunkPayloadData>, resets: seq<u16>,
                    pending: seq<ChunkPayloadData>, nBytes: nat, rwnd: u32, next: u32,
                    chunkMap: map<u32, ChunkPayloadData>, empty: bool)
    requires DrainedSoFar(p0, b0, cwnd, r0, t0, m0, empty0, chunks, resets, pending, nBytes, rwnd, next, chunkMap, empty)
    requires pending != [] && 0 < |pending[0].userData| <= rwnd as int && nBytes + |pending[0].userData| <= cwnd
    ensures var c, len := Sending(pending[0], next), |pending[0].userData|;
            DrainedSoFar(p0, b0, cwnd, r0, t0, m0, empty0, chunks + [c], resets,
                    pending[1..], nBytes + len, rwnd - len as u32, Add32(next, 1), chunkMap[next := c], false)
  {
    var c := Sending(pending[0], next);
    DrainSendStep(pending, nBytes, cwnd, rwnd, next, chunks, resets);
    DataLengthAppend(chunks, c);
    AddStep(t0, |chunks|);
    assert (chunks + [c])[..|chunks|] == chunks;
  }

  /** The run of `n` TSNs after `base` are all in flight and abandoned. */
  ghost predicate AbandonedRun(chunks: map<u32, ChunkPayloadData>, base: u32, n: nat) {
    forall k :: 1 <= k <= n ==> Add32(base, k) in chunks && chunks[Add32(base, k)].abandoned
  }

  /** An abandoned chunk right after an abandoned run extends it, and a run never outgrows the queue. */
  lemma AbandonedRunExtends(chunks: map<u32, ChunkPayloadData>, base: u32, n: nat)
    requires AbandonedRun(chunks, base, n) && n < TWO_32
    requires Add32(base, n + 1) in chunks && chunks[Add32(base, n + 1)].abandoned
    ensures AbandonedRun(chunks, base, n + 1) && n + 1 <= |chunks.Keys|
  {
    assert forall k :: 1 <= k <= n + 1 ==> Add32(base, k) in chunks.Keys;
    RunFitsInKeys(base, n + 1, chunks.Keys);
  }

  /**
   * `process_fast_retransmission` on the state `s`: outside fast recovery
   * the TSNs after `cum` and before the HTNA are scanned for misses; in
   * fast recovery, when the ack point advanced, the `count` TSNs after
   * `cum`; a fast retransmit then becomes due in fast recovery.
   */
  ghost function FastRetransmitted(s: Recovery, cum: u32, htna: u32, count: nat, advanced: bool, mtu: u32): Result<Recovery> {
    var maxTsn := if !s.inFastRecovery then htna else Add32(Add32(cum, count % TWO_32), 1);
    var ts := if !s.inFastRecovery || advanced then TsnsFrom(Add32(cum, 1), ForwardRunLength(Add32(cum, 1), maxTsn)) else [];
    match MissFold(ts, s, htna, mtu)
    case Err(e) => Err(e)
    case Ok(v) => Ok(v.(willRetransmitFast := v.willRetransmitFast || (v.inFastRecovery && advanced)))
  }

  /** The sum of the per-stream counts of a SACK, as `handle_sack` adds them up before moving the ack point. */
  method TotalBytesAcked(bytes: map<u16, nat>) returns (total: nat)
    ensures total == Total(bytes)
  {
    total := 0;
    var rest := bytes;
    while rest != map[]
      invariant total + Total(rest) == Total(bytes)
      decreases rest.Keys
    {
      var si :| si in rest;
      TotalRemove(rest, si);
      total := total + rest[si];
      rest := rest - {si};
    }
    TotalEmpty(rest);
  }

  /** The chunks in flight at the TSNs base+1, ..., base+n. */
  ghost function RunChunks(chunks: map<u32, ChunkPayloadData>, base: u32, n: nat): (cs: seq<ChunkPayloadData>)
    requires forall k :: 1 <= k <= n ==> Add32(base, k) in chunks
    ensures |cs| == n && forall j :: 0 <= j < n ==> cs[j] == chunks[Add32(base, j + 1)]
  {
    seq(n, j requires 0 <= j < n => chunks[Add32(base, j + 1)])
  }

  /** The run of `n + 1` chunks is the run of `n` followed by the next one. */
  lemma RunChunksStep(chunks: map<u32, ChunkPayloadData>, base: u32, n: nat)
    requires forall k :: 1 <= k <= n + 1 ==> Add32(base, k) in chunks
    ensures var cs := RunChunks(chunks, base, n + 1);
            cs[..n] == RunChunks(chunks, base, n) && cs[n] == chunks[Add32(base, n + 1)]
  {
  }

  /** The report over a run one longer is the report over the run, updated by the next chunk. */
  lemma SsnReportStep(chunks: map<u32, ChunkPayloadData>, base: u32, n: nat)
    requires forall k :: 1 <= k <= n + 1 ==> Add32(base, k) in chunks
    ensures SsnReport(RunChunks(chunks, base, n + 1))
              == ReportSsn(SsnReport(RunChunks(chunks, base, n)), chunks[Add32(base, n + 1)])
  {
    RunChunksStep(chunks, base, n);
  }

  /** The entries of a stream map as a list of FORWARD TSN streams, each once. */
  method ListStreams(m: map<u16, u16>) returns (streams: seq<ForwardTsnStream>)
    ensures ListsEntries(streams, m)
  {
    streams := [];
    var rest := m;
    while rest != map[]
      invariant Listing(streams, rest, m)
      decreases |rest.Keys|
    {
      var si :| si in rest;
      ListingStep(streams, rest, m, si);
      streams := streams + [ForwardTsnStream(si, rest[si])];
      rest := rest - {si};
    }
  }

  /** The loop of `ListStreams` has listed the entries of `m` outside `rest`, each once, and left `rest` as in `m`. */
  ghost predicate Listing(streams: seq<ForwardTsnStream>, rest: map<u16, u16>, m: map<u16, u16>) {
    (forall si :: si in rest ==> si in m && rest[si] == m[si])
    && (forall j :: 0 <= j < |streams| ==>
          streams[j].identifier in m && streams[j].identifier !in rest
          && streams[j].sequence == m[streams[j].identifier])
    && (forall si :: si in m && si !in rest ==> exists j :: 0 <= j < |streams| && streams[j].identifier == si)
    && (forall a, b :: 0 <= a < b < |streams| ==> streams[a].identifier != streams[b].identifier)
  }

  /** Listing one more entry of `rest` keeps the loop's invariant. */
  lemma ListingStep(streams: seq<ForwardTsnStream>, rest: map<u16, u16>, m: map<u16, u16>, si: u16)
    requires Listing(streams, rest, m) && si in rest
    ensures Listing(streams + [ForwardTsnStream(si, rest[si])], rest - {si}, m)
  {
    var streams' := streams + [ForwardTsnStream(si, rest[si])];
    var rest' := rest - {si};
    forall s | s in m && s !in rest'
      ensures exists j :: 0 <= j < |streams'| && streams'[j].identifier == s
    {
      if s == si {
        assert streams'[|streams|].identifier == s;
      } else {
        var j :| 0 <= j < |streams| && streams[j].identifier == s;
        assert streams'[j] == streams[j];
      }
    }
  }

  class Association {
    var side: Side
    var state: AssociationState
    var handshakeCompleted: bool
    var maxMessageSize: u32
    /** Never updated by the modelled code: it stays 0. */
    var inflightQueueLength: nat
    var willSendShutdown: bool

    var peerVerificationTag: u32
    var myVerificationTag: u32
    var myNextTsn: u32
    var peerLastTsn: u32
    var minTsn2measureRtt: u32
    var willSendForwardTsn: bool
    var willRetransmitFast: bool
    var willRetransmitReconfig: bool
    var willSendShutdownAck: bool
    var willSendShutdownComplete: bool
    var myNextRsn: u32

    var sourcePort: u16
    var destinationPort: u16
    var myMaxNumInboundStreams: u16
    var myMaxNumOutboundStreams: u16
    var myCookie: Option<seq<byte>>

    const payloadQueue: PayloadQueue
    const inflightQueue: PayloadQueue
    var pendingQueue: seq<ChunkPayloadData>
    var controlQueue: seq<Packet>
    var streamQueue: seq<u16>

    var mtu: u32
    var maxPayloadSize: u32
    var cumulativeTsnAckPoint: u32
    var advancedPeerTsnAckPoint: u32
    var useForwardTsn: bool
    var timers: set<Timer>

    var maxReceiveBufferSize: u32
    var cwnd: u32
    var rwnd: u32
    var ssthresh: u32
    var partialBytesAcked: u32
    var inFastRecovery: bool
    var fastRecoverExitPoint: u32

    var storedInit: Option<ChunkInit>
    var storedCookieEcho: Option<seq<byte>>
    var streams: map<u16, nat>

    var events: seq<Event>
    var endpointEvents: seq<EndpointEvent>

    var delayedAckTriggered: bool
    var immediateAckTriggered: bool
    var ackState: AckState
    var ackMode: AckMode

    /** The receive buffer and the in-flight queue are two distinct, well-formed payload queues. */
    ghost predicate Valid()
      reads payloadQueue, inflightQueue
    {
      payloadQueue != inflightQueue && payloadQueue.Valid() && inflightQueue.Valid()
    }

    /**
     * `Association::new`: a client starts in COOKIE-WAIT with its INIT
     * queued and T1-init running; a server waits in CLOSED. The initial
     * cwnd is the source's `clamp`, which panics for a small MTU: the
     * constructor requires that it does not, and `New` returns that panic.
     */
    constructor (isClient: bool, maxReceiveBufferSize: u32, maxMessageSize: u32,
                 maxNumOutboundStreams: u16, maxNumInboundStreams: u16,
                 maxPayloadSize: u32, localAid: u32, randomTsn: u32)
      requires InitialCwndAsWritten(MtuFor(maxPayloadSize)).Ok?
      ensures Valid() && fresh(payloadQueue) && fresh(inflightQueue)
      ensures payloadQueue.chunkMap == map[] && inflightQueue.chunkMap == map[]
      ensures this.maxPayloadSize == maxPayloadSize && mtu == MtuFor(maxPayloadSize)
      ensures cwnd == InitialCwndAsWritten(mtu).value
      ensures myNextTsn == (if randomTsn == 0 then 1 else randomTsn)
      ensures myNextTsn != 0 && myNextRsn == myNextTsn && minTsn2measureRtt == myNextTsn
      ensures cumulativeTsnAckPoint == myNextTsn - 1 && advancedPeerTsnAckPoint == myNextTsn - 1
      ensures Add32(cumulativeTsnAckPoint, 1) == myNextTsn
      ensures myVerificationTag == localAid && peerVerificationTag == 0
      ensures this.maxReceiveBufferSize == maxReceiveBufferSize && this.maxMessageSize == maxMessageSize
      ensures myMaxNumOutboundStreams == maxNumOutboundStreams && myMaxNumInboundStreams == maxNumInboundStreams
      ensures rwnd == 0 && ssthresh == 0 && partialBytesAcked == 0 && !inFastRecovery
      ensures streams == map[] && pendingQueue == [] && events == [] && ackState == Idle && ackMode == Normal
      ensures isClient ==>
                var init := ClientInit(localAid, maxReceiveBufferSize, maxNumOutboundStreams, maxNumInboundStreams, myNextTsn);
                side == Client && state == CookieWait && storedInit == Some(init) && timers == {T1Init}
                && sourcePort == INIT_PORT && destinationPort == INIT_PORT
                && controlQueue == [Packet(CommonHeader(INIT_PORT, INIT_PORT, 0), [Init(init)])]
      ensures !isClient ==>
                side == Server && state == Closed && storedInit == None && timers == {} && controlQueue == []
                && sourcePort == 0 && destinationPort == 0
    {
      var tsn: u32 := if randomTsn == 0 then 1 else randomTsn;
      side := if isClient then Client else Server;
      // a client sends its INIT at once (`send_init`) and starts T1-init
      var init := ClientInit(localAid, maxReceiveBufferSize, maxNumOutboundStreams, maxNumInboundStreams, tsn);
      state := if isClient then CookieWait else Closed;
      handshakeCompleted := false;
      this.maxMessageSize := maxMessageSize;
      inflightQueueLength := 0;
      willSendShutdown := false;
      peerVerificationTag := 0;
      myVerificationTag := localAid;
      myNextTsn := tsn;
      peerLastTsn := 0;
      minTsn2measureRtt := tsn;
      willSendForwardTsn := false;
      willRetransmitFast := false;
      willRetransmitReconfig := false;
      willSendShutdownAck := false;
      willSendShutdownComplete := false;
      myNextRsn := tsn;
      sourcePort := if isClient then INIT_PORT else 0;
      destinationPort := if isClient then INIT_PORT else 0;
      myMaxNumInboundStreams := maxNumInboundStreams;
      myMaxNumOutboundStreams := maxNumOutboundStreams;
      myCookie := None;
      payloadQueue := new PayloadQueue();
      inflightQueue := new PayloadQueue();
      pendingQueue := [];
      controlQueue := if isClient then [Packet(CommonHeader(INIT_PORT, INIT_PORT, 0), [Init(init)])] else [];
      streamQueue := [];
      mtu := MtuFor(maxPayloadSize);
      this.maxPayloadSize := maxPayloadSize;
      cumulativeTsnAckPoint := tsn - 1;
      advancedPeerTsnAckPoint := tsn - 1;
      useForwardTsn := false;
      timers := if isClient then {T1Init} else {};
      this.maxReceiveBufferSize := maxReceiveBufferSize;
      cwnd := InitialCwndAsWritten(MtuFor(maxPayloadSize)).value;
      rwnd := 0;
      ssthresh := 0;
      partialBytesAcked := 0;
      inFastRecovery := false;
      fastRecoverExitPoint := 0;
      storedInit := if isClient then Some(init) else None;
      storedCookieEcho := None;
      streams := map[];
      events := [];
      endpointEvents := [];
      delayedAckTriggered := false;
      immediateAckTriggered := false;
      ackState := Idle;
      ackMode := Normal;
    }

    /**
     * `Association::new` with its panic as a value: `Err(Panic)` exactly
     * when the initial cwnd's `clamp` panics, otherwise a new association.
     */
    static method New(isClient: bool, maxReceiveBufferSize: u32, maxMessageSize: u32,
                      maxNumOutboundStreams: u16, maxNumInboundStreams: u16,
                      maxPayloadSize: u32, localAid: u32, randomTsn: u32) returns (r: Result<Association>)
      ensures r.Err? <==> 4 * MtuFor(maxPayloadSize) % 0x1_0000_0000 < INITIAL_CWND_FLOOR
      ensures r.Err? ==> r.error == Panic
      ensures r.Ok? ==> fresh(r.value) && r.value.Valid() && r.value.state == (if isClient then CookieWait else Closed)
      ensures r.Ok? ==> r.value.mtu == MtuFor(maxPayloadSize) && r.value.cwnd == InitialCwndAsWritten(r.value.mtu).value
    {
      if InitialCwndAsWritten(MtuFor(maxPayloadSize)).Err? {
        return Err(Panic);
      }
      var a := new Association(isClient, maxReceiveBufferSize, maxMessageSize, maxNumOutboundStreams,
                               maxNumInboundStreams, maxPayloadSize, localAid, randomTsn);
      r := Ok(a);
    }

    /** `create_packet`: the chunks under this association's ports and the peer's verification tag. */
    function CreatePacket(chunks: seq<Chunk>): (p: Packet)
      reads this
      ensures p.commonHeader.verificationTag == peerVerificationTag
      ensures p.commonHeader.sourcePort == sourcePort && p.commonHeader.destinationPort == destinationPort
      ensures p.chunks == chunks
    {
      Packet(CommonHeader(sourcePort, destinationPort, peerVerificationTag), chunks)
    }

    /** `generate_next_tsn`: hands out the next TSN, wrapping after u32::MAX. */
    method GenerateNextTsn() returns (tsn: u32)
      modifies this`myNextTsn
      ensures tsn == old(myNextTsn) && myNextTsn == Add32(tsn, 1)
      ensures Lt32(tsn, myNextTsn) && Distance(tsn, myNextTsn) == 1
    {
      tsn := myNextTsn;
      myNextTsn := Add32(myNextTsn, 1);
      SuccessorFollows(tsn);
      DistanceOfAdd(tsn, 1);
    }

    /** `generate_next_rsn`: hands out the next reconfiguration request sequence number. */
    method GenerateNextRsn() returns (rsn: u32)
      modifies this`myNextRsn
      ensures rsn == old(myNextRsn) && myNextRsn == Add32(rsn, 1)
      ensures Lt32(rsn, myNextRsn) && Distance(rsn, myNextRsn) == 1
    {
      rsn := myNextRsn;
      myNextRsn := Add32(myNextRsn, 1);
      SuccessorFollows(rsn);
      DistanceOfAdd(rsn, 1);
    }

    /** `send_init`: queues the stored INIT on port 5000 at both ends. */
    method SendInit() returns (r: Result<()>)
      modifies this`sourcePort, this`destinationPort, this`controlQueue
      ensures old(storedInit).None? ==> r == Err(ErrInitNotStoredToSend) && unchanged(this)
      ensures old(storedInit).Some? ==>
                r == Ok(()) && sourcePort == INIT_PORT && destinationPort == INIT_PORT
                && controlQueue == old(controlQueue) + [Packet(CommonHeader(INIT_PORT, INIT_PORT, peerVerificationTag), [Init(storedInit.value)])]
    {
      if storedInit.None? {
        return Err(ErrInitNotStoredToSend);
      }
      sourcePort := INIT_PORT;
      destinationPort := INIT_PORT;
      controlQueue := controlQueue + [CreatePacket([Init(storedInit.value)])];
      return Ok(());
    }

    /** `send_cookie_echo`: queues the stored COOKIE ECHO. */
    method SendCookieEcho() returns (r: Result<()>)
      modifies this`controlQueue
      ensures old(storedCookieEcho).None? ==> r == Err(ErrCookieEchoNotStoredToSend) && unchanged(this)
      ensures old(storedCookieEcho).Some? ==>
                r == Ok(()) && controlQueue == old(controlQueue) + [CreatePacket([CookieEcho(storedCookieEcho.value)])]
    {
      if storedCookieEcho.None? {
        return Err(ErrCookieEchoNotStoredToSend);
      }
      controlQueue := controlQueue + [CreatePacket([CookieEcho(storedCookieEcho.value)])];
      return Ok(());
    }

    /**
     * The two parameter loops of `handle_init` and `handle_init_ack`:
     * FORWARD TSN is used once any Supported Extensions parameter lists it,
     * and the cookie is the last State Cookie parameter.
     */
    method ScanParams(params: seq<Param>) returns (cookie: Option<seq<byte>>)
      modifies this`useForwardTsn
      ensures cookie == LastStateCookie(params)
      ensures useForwardTsn == (old(useForwardTsn) || AdvertisesForwardTsn(params))
    {
      cookie := None;
      var k := 0;
      while k < |params|
        invariant 0 <= k <= |params|
        invariant cookie == LastStateCookie(params[..k])
        invariant useForwardTsn == (old(useForwardTsn) || AdvertisesForwardTsn(params[..k]))
      {
        LastStateCookieStep(params, k);
        AdvertisesForwardTsnStep(params, k);
        match params[k] {
          case StateCookie(c) =>
            cookie := Some(c);
          case SupportedExtensions(types) =>
            var t := 0;
            ghost var before := useForwardTsn;
            while t < |types|
              invariant 0 <= t <= |types|
              invariant useForwardTsn == (before || CT_FORWARD_TSN in types[..t])
            {
              assert types[..t + 1] == types[..t] + [types[t]];
              if types[t] == CT_FORWARD_TSN {
                useForwardTsn := true;
              }
              t := t + 1;
            }
            assert types[..t] == types;
          case OtherParam(_) =>
        }
        k := k + 1;
      }
      assert params[..k] == params;
    }

    /**
     * `handle_init` (sections 5.1 and 5.2.1 of RFC 4960): refused outside
     * CLOSED, COOKIE-WAIT and COOKIE-ECHOED; otherwise it adopts the peer's
     * tag, ports and TSN, lowers the stream counts to the peer's, and
     * answers with an INIT ACK carrying the state cookie.
     */
    method HandleInit(h: CommonHeader, i: ChunkInit, freshCookie: seq<byte>) returns (r: Result<seq<Packet>>)
      modifies this`myMaxNumInboundStreams, this`myMaxNumOutboundStreams, this`peerVerificationTag,
               this`sourcePort, this`destinationPort, this`peerLastTsn, this`useForwardTsn, this`myCookie
      ensures old(state) !in {Closed, CookieWait, CookieEchoed} ==> r == Err(ErrHandleInitState) && unchanged(this)
      ensures old(state) in {Closed, CookieWait, CookieEchoed} ==>
                myMaxNumInboundStreams == Min(i.numInboundStreams, old(myMaxNumInboundStreams))
                && myMaxNumOutboundStreams == Min(i.numOutboundStreams, old(myMaxNumOutboundStreams))
                && peerVerificationTag == i.initiateTag
                && sourcePort == h.destinationPort && destinationPort == h.sourcePort
                && peerLastTsn == PeerLastTsnBefore(i.initialTsn)
                && useForwardTsn == (old(useForwardTsn) || AdvertisesForwardTsn(i.params))
                && myCookie == (if old(myCookie).Some? then old(myCookie) else Some(freshCookie))
                && r == Ok([CreatePacket([Init(ChunkInit(true, myVerificationTag, maxReceiveBufferSize,
                                                         myMaxNumOutboundStreams, myMaxNumInboundStreams, myNextTsn,
                                                         [StateCookie(myCookie.value), OWN_SUPPORTED_EXTENSIONS]))])])
      ensures myMaxNumInboundStreams <= old(myMaxNumInboundStreams) && myMaxNumOutboundStreams <= old(myMaxNumOutboundStreams)
    {
      if state != Closed && state != CookieWait && state != CookieEchoed {
        return Err(ErrHandleInitState);
      }
      myMaxNumInboundStreams := Min(i.numInboundStreams, myMaxNumInboundStreams);
      myMaxNumOutboundStreams := Min(i.numOutboundStreams, myMaxNumOutboundStreams);
      peerVerificationTag := i.initiateTag;
      sourcePort := h.destinationPort;
      destinationPort := h.sourcePort;
      peerLastTsn := if i.initialTsn == 0 then U32_MAX else i.initialTsn - 1;
      var _ := ScanParams(i.params);
      if myCookie.None? {
        myCookie := Some(freshCookie);
      }
      var initAck := ChunkInit(true, myVerificationTag, maxReceiveBufferSize, myMaxNumOutboundStreams,
                               myMaxNumInboundStreams, myNextTsn, [StateCookie(myCookie.value), OWN_SUPPORTED_EXTENSIONS]);
      return Ok([CreatePacket([Init(initAck)])]);
    }

    /**
     * `handle_init_ack` (sections 5.1 and 5.2.3 of RFC 4960): ignored
     * outside COOKIE-WAIT. The peer's tag, TSN and stream counts are taken
     * before the port check, so they stay even when a port mismatch drops
     * the chunk; a matching INIT ACK goes on to `AcceptInitAck`.
     */
    method HandleInitAck(h: CommonHeader, i: ChunkInit) returns (r: Result<seq<Packet>>)
      modifies this`myMaxNumInboundStreams, this`myMaxNumOutboundStreams, this`peerVerificationTag,
               this`peerLastTsn, this`rwnd, this`ssthresh, this`timers, this`storedInit, this`useForwardTsn,
               this`storedCookieEcho, this`controlQueue, this`state
      ensures old(state) != CookieWait ==> r == Ok([]) && unchanged(this)
      ensures old(state) == CookieWait ==>
                myMaxNumInboundStreams == Min(i.numInboundStreams, old(myMaxNumInboundStreams))
                && myMaxNumOutboundStreams == Min(i.numOutboundStreams, old(myMaxNumOutboundStreams))
                && peerVerificationTag == i.initiateTag && peerLastTsn == PeerLastTsnBefore(i.initialTsn)
      ensures old(state) == CookieWait && (sourcePort != h.destinationPort || destinationPort != h.sourcePort) ==>
                r == Ok([]) && state == CookieWait && rwnd == old(rwnd) && ssthresh == old(ssthresh)
                && timers == old(timers) && storedInit == old(storedInit) && useForwardTsn == old(useForwardTsn)
                && storedCookieEcho == old(storedCookieEcho) && controlQueue == old(controlQueue)
      ensures old(state) == CookieWait && sourcePort == h.destinationPort && destinationPort == h.sourcePort ==>
                Accepted(i, r, old(timers), old(useForwardTsn), old(storedCookieEcho), old(controlQueue))
    {
      if state != CookieWait {
        return Ok([]);
      }
      myMaxNumInboundStreams := Min(i.numInboundStreams, myMaxNumInboundStreams);
      myMaxNumOutboundStreams := Min(i.numOutboundStreams, myMaxNumOutboundStreams);
      peerVerificationTag := i.initiateTag;
      peerLastTsn := if i.initialTsn == 0 then U32_MAX else i.initialTsn - 1;
      if sourcePort != h.destinationPort || destinationPort != h.sourcePort {
        return Ok([]);
      }
      r := AcceptInitAck(i);
    }

    /**
     * The state after an INIT ACK on matching ports was taken in COOKIE-WAIT:
     * rwnd and ssthresh are the peer's window, the INIT is no longer kept,
     * and either the last State Cookie is being echoed under T1-cookie in
     * COOKIE-ECHOED, or, without a cookie, the INIT ACK was an error.
     */
    ghost predicate Accepted(i: ChunkInit, r: Result<seq<Packet>>, timers0: set<Timer>, useForwardTsn0: bool,
                             storedCookieEcho0: Option<seq<byte>>, controlQueue0: seq<Packet>)
      reads this
    {
      var cookie := LastStateCookie(i.params);
      rwnd == i.advertisedReceiverWindowCredit && ssthresh == rwnd && storedInit == None
      && useForwardTsn == (useForwardTsn0 || AdvertisesForwardTsn(i.params))
      && (cookie.None? ==>
            r == Err(ErrInitAckNoCookie) && state == CookieWait && timers == timers0 - {T1Init}
            && storedCookieEcho == storedCookieEcho0 && controlQueue == controlQueue0)
      && (cookie.Some? ==>
            r == Ok([]) && state == CookieEchoed && timers == timers0 - {T1Init} + {T1Cookie}
            && storedCookieEcho == cookie && controlQueue == controlQueue0 + [CreatePacket([CookieEcho(cookie.value)])])
    }

    /** The part of `handle_init_ack` after the port check (section 5.1 B of RFC 4960). */
    method AcceptInitAck(i: ChunkInit) returns (r: Result<seq<Packet>>)
      requires state == CookieWait
      modifies this`rwnd, this`ssthresh, this`timers, this`storedInit, this`useForwardTsn,
               this`storedCookieEcho, this`controlQueue, this`state
      ensures Accepted(i, r, old(timers), old(useForwardTsn), old(storedCookieEcho), old(controlQueue))
    {
      rwnd := i.advertisedReceiverWindowCredit;
      ssthresh := rwnd;
      timers := timers - {T1Init};
      storedInit := None;
      var cookie := ScanParams(i.params);
      if cookie.None? {
        return Err(ErrInitAckNoCookie);
      }
      storedCookieEcho := cookie;
      var sent := SendCookieEcho();
      assert sent.Ok?;
      timers := timers + {T1Cookie};
      state := CookieEchoed;
      return Ok([]);
    }

    /** `handle_heartbeat` (section 8.3 of RFC 4960): echoes the Heartbeat Info back in a HEARTBEAT ACK. */
    function HandleHeartbeat(firstInfo: Option<seq<byte>>): (r: Result<seq<Packet>>)
      reads this
      ensures r.Ok?
      ensures firstInfo.None? ==> r.value == []
      ensures firstInfo.Some? ==> r.value == [CreatePacket([HeartbeatAck(firstInfo.value)])]
    {
      if firstInfo.Some? then Ok([CreatePacket([HeartbeatAck(firstInfo.value)])]) else Ok([])
    }

    /**
     * `handle_cookie_echo` (section 5.1 of RFC 4960): a COOKIE ECHO that
     * matches our cookie is answered with a COOKIE ACK; in the handshake
     * states it also establishes the association. Any other one is dropped.
     */
    method HandleCookieEcho(cookie: seq<byte>) returns (r: Result<seq<Packet>>)
      modifies this`timers, this`storedInit, this`storedCookieEcho, this`events, this`state, this`handshakeCompleted
      ensures var matches := old(myCookie) == Some(cookie);
              !(matches && old(state) in {Established, Closed, CookieWait, CookieEchoed}) ==> r == Ok([]) && unchanged(this)
      ensures old(myCookie) == Some(cookie) && old(state) == Established ==>
                r == Ok([CreatePacket([CookieAck])]) && unchanged(this)
      ensures old(myCookie) == Some(cookie) && old(state) in {Closed, CookieWait, CookieEchoed} ==>
                r == Ok([CreatePacket([CookieAck])]) && state == Established && handshakeCompleted
                && events == old(events) + [Connected] && timers == old(timers) - {T1Init, T1Cookie}
                && storedInit == None && storedCookieEcho == None
    {
      if myCookie.None? {
        return Ok([]);
      }
      match state {
        case Established =>
          if myCookie.value != cookie {
            return Ok([]);
          }
        case Closed | CookieWait | CookieEchoed =>
          if myCookie.value != cookie {
            return Ok([]);
          }
          timers := timers - {T1Init};
          storedInit := None;
          timers := timers - {T1Cookie};
          storedCookieEcho := None;
          events := events + [Connected];
          state := Established;
          handshakeCompleted := true;
        case _ =>
          return Ok([]);
      }
      return Ok([CreatePacket([CookieAck])]);
    }

    /** `handle_cookie_ack` (sections 5.1 and 5.2.5 of RFC 4960): only in COOKIE-ECHOED does it establish the association. */
    method HandleCookieAck() returns (r: Result<seq<Packet>>)
      modifies this`timers, this`storedCookieEcho, this`events, this`state, this`handshakeCompleted
      ensures r == Ok([])
      ensures old(state) != CookieEchoed ==> unchanged(this)
      ensures old(state) == CookieEchoed ==>
                state == Established && handshakeCompleted && events == old(events) + [Connected]
                && timers == old(timers) - {T1Cookie} && storedCookieEcho == None
    {
      if state != CookieEchoed {
        return Ok([]);
      }
      timers := timers - {T1Cookie};
      storedCookieEcho := None;
      events := events + [Connected];
      state := Established;
      handshakeCompleted := true;
      return Ok([]);
    }

    /**
     * `shutdown` (section 9.2 of RFC 4960): only an established association
     * shuts down; with nothing outstanding it sends SHUTDOWN at once,
     * otherwise it waits in SHUTDOWN-PENDING.
     */
    method Shutdown() returns (r: Result<()>)
      modifies this`state, this`willSendShutdown, this`endpointEvents
      ensures old(state) != Established ==> r == Err(ErrShutdownNonEstablished) && unchanged(this)
      ensures old(state) == Established ==>
                r == Ok(()) && endpointEvents == old(endpointEvents) + [Drained]
                && (inflightQueueLength == 0 ==> state == ShutdownSent && willSendShutdown)
                && (inflightQueueLength != 0 ==> state == ShutdownPending && willSendShutdown == old(willSendShutdown))
    {
      if state != Established {
        return Err(ErrShutdownNonEstablished);
      }
      state := ShutdownPending;
      if inflightQueueLength == 0 {
        willSendShutdown := true;
        state := ShutdownSent;
      }
      endpointEvents := endpointEvents + [Drained];
      return Ok(());
    }

    /** `close_all_timers`. */
    method CloseAllTimers()
      modifies this`timers
      ensures timers == {}
    {
      timers := {};
    }

    /** `unregister_stream`. */
    method UnregisterStream(si: u16)
      modifies this`streams
      ensures streams == old(streams) - {si}
    {
      streams := streams - {si};
    }

    /** `close`: moves to CLOSED, stops every timer and drops every stream; once closed it changes nothing. */
    method Close() returns (r: Result<()>)
      modifies this`state, this`timers, this`streams
      ensures r == Ok(())
      ensures old(state) == Closed ==> unchanged(this)
      ensures state == Closed
      ensures old(state) != Closed ==> timers == {} && streams == map[]
    {
      if state != Closed {
        state := Closed;
        CloseAllTimers();
        while streams != map[]
          invariant state == Closed && timers == {}
          decreases streams.Keys
        {
          var si :| si in streams;
          UnregisterStream(si);
        }
      }
      return Ok(());
    }

    /**
     * `handle_shutdown` (section 9.2 of RFC 4960): an established endpoint
     * with data still in flight enters SHUTDOWN-RECEIVED; one with nothing
     * in flight, or one in SHUTDOWN-SENT, answers with SHUTDOWN ACK.
     */
    method HandleShutdown() returns (r: Result<seq<Packet>>)
      requires Valid()
      modifies this`state, this`willSendShutdownAck
      ensures r == Ok([])
      ensures old(state) == Established && inflightQueue.sorted != [] ==>
                state == ShutdownReceived && willSendShutdownAck == old(willSendShutdownAck)
      ensures (old(state) == Established && inflightQueue.sorted == []) || old(state) == ShutdownSent ==>
                state == ShutdownAckSent && willSendShutdownAck
      ensures old(state) != Established && old(state) != ShutdownSent ==> unchanged(this)
    {
      if state == Established {
        if !inflightQueue.IsEmpty() {
          state := ShutdownReceived;
        } else {
          willSendShutdownAck := true;
          state := ShutdownAckSent;
        }
      } else if state == ShutdownSent {
        willSendShutdownAck := true;
        state := ShutdownAckSent;
      }
      return Ok([]);
    }

    /** `handle_shutdown_ack`: in SHUTDOWN-SENT or SHUTDOWN-ACK-SENT, stop T2 and send SHUTDOWN COMPLETE. */
    method HandleShutdownAck() returns (r: Result<seq<Packet>>)
      modifies this`timers, this`willSendShutdownComplete
      ensures r == Ok([])
      ensures old(state) in {ShutdownSent, ShutdownAckSent} ==>
                timers == old(timers) - {T2Shutdown} && willSendShutdownComplete
      ensures old(state) !in {ShutdownSent, ShutdownAckSent} ==> unchanged(this)
    {
      if state == ShutdownSent || state == ShutdownAckSent {
        timers := timers - {T2Shutdown};
        willSendShutdownComplete := true;
      }
      return Ok([]);
    }

    /** `handle_shutdown_complete`: in SHUTDOWN-ACK-SENT the association closes. */
    method HandleShutdownComplete() returns (r: Result<seq<Packet>>)
      modifies this`timers, this`state, this`streams
      ensures r == Ok([])
      ensures old(state) == ShutdownAckSent ==> state == Closed && timers == {} && streams == map[]
      ensures old(state) != ShutdownAckSent ==> unchanged(this)
    {
      if state == ShutdownAckSent {
        timers := timers - {T2Shutdown};
        var _ := Close();
      }
      return Ok([]);
    }

    /**
     * `get_or_create_stream` with `create_stream(.., accept = true)`: a new
     * stream starts with an empty reassembly queue, is queued for the
     * application to accept, and announced with a stream-opened event.
     */
    method GetOrCreateStream(si: u16)
      modifies this`streams, this`streamQueue, this`events
      ensures si in old(streams) ==> unchanged(this)
      ensures si !in old(streams) ==>
                streams == old(streams)[si := 0] && streamQueue == old(streamQueue) + [si]
                && events == old(events) + [StreamOpened]
      ensures streams == Credit(old(streams), si, 0) && Total(streams) == Total(old(streams))
    {
      TotalCredit(streams, si, 0);
      if si !in streams {
        streamQueue := streamQueue + [si];
        events := events + [StreamOpened];
        streams := streams[si := 0];
      }
    }

    /**
     * `get_my_receiver_window_credit`: the receive buffer less the bytes
     * queued on all streams, where each stream's count is cast to u32 and
     * the sum wraps (the loop adds with `+=` on u32), floored at 0.
     */
    method GetMyReceiverWindowCredit() returns (credit: u32)
      ensures credit == SaturatingSub(maxReceiveBufferSize, Total(streams) % 0x1_0000_0000)
      ensures credit <= maxReceiveBufferSize
      ensures credit == 0 <==> maxReceiveBufferSize <= Total(streams) % 0x1_0000_0000
    {
      var bytesQueued: u32 := 0;
      var rest := streams;
      ghost var counted: nat := 0;
      while rest != map[]
        invariant counted + Total(rest) == Total(streams)
        invariant bytesQueued == counted % 0x1_0000_0000
        decreases rest.Keys
      {
        var si :| si in rest;
        TotalRemove(rest, si);
        AddTruncated(bytesQueued, counted, rest[si]);
        bytesQueued := Add32(bytesQueued, rest[si] % 0x1_0000_0000);
        counted := counted + rest[si];
        rest := rest - {si};
      }
      TotalEmpty(rest);
      credit := SaturatingSub(maxReceiveBufferSize, bytesQueued);
      SaturatingSubMeaning(maxReceiveBufferSize, bytesQueued);
    }

    /**
     * `handle_peer_last_tsn_and_acknowledgement`: the cumulative TSN of the
     * peer's data moves over the head of the receive buffer
     * (`AdvancePeerLastTsn`), then a SACK is triggered (`TriggerAck`), a
     * packet loss being any chunk left in the buffer.
     */
    method HandlePeerLastTsnAndAcknowledgement(sackImmediately: bool) returns (r: Result<seq<Packet>>, ghost n: nat)
      requires Valid()
      modifies this`peerLastTsn, this`delayedAckTriggered, this`immediateAckTriggered,
               payloadQueue`sorted, payloadQueue`chunkMap, payloadQueue`nBytes
      ensures Valid() && r == Ok([])
      ensures Advanced(old(payloadQueue.sorted), old(payloadQueue.chunkMap), old(peerLastTsn), n)
      ensures Triggered(sackImmediately, payloadQueue.sorted != [], old(delayedAckTriggered), old(immediateAckTriggered))
    {
      n := AdvancePeerLastTsn();
      TriggerAck(sackImmediately, !payloadQueue.IsEmpty());
      return Ok([]), n;
    }

    /**
     * The loop of `handle_peer_last_tsn_and_acknowledgement` has stepped
     * the peer's cumulative TSN over `n` chunks: the first `n` of the buffer,
     * which followed it without a gap; the next one, if any, does not.
     */
    ghost predicate Advanced(s0: seq<u32>, m0: map<u32, ChunkPayloadData>, p0: u32, n: nat)
      reads this`peerLastTsn, payloadQueue
    {
      DroppedHead(payloadQueue, s0, m0, n)
      && (forall j :: 0 <= j < n ==> s0[j] == Add32(p0, j + 1))
      && peerLastTsn == Add32(p0, n)
      && (payloadQueue.sorted != [] ==> payloadQueue.sorted[0] != Add32(peerLastTsn, 1))
    }

    /** The loop `while payload_queue.pop(peer_last_tsn + 1).is_some() { peer_last_tsn += 1 }`. */
    method AdvancePeerLastTsn() returns (ghost n: nat)
      requires Valid()
      modifies this`peerLastTsn, payloadQueue`sorted, payloadQueue`chunkMap, payloadQueue`nBytes
      ensures Valid()
      ensures Advanced(old(payloadQueue.sorted), old(payloadQueue.chunkMap), old(peerLastTsn), n)
    {
      ghost var s0 := payloadQueue.sorted;
      ghost var p0 := peerLastTsn;
      n := 0;
      assert s0[0..] == s0;
      while true
        invariant Valid() && Passed(s0, old(payloadQueue.chunkMap), p0, n)
        decreases |payloadQueue.sorted|
      {
        var step;
        step, n := PopReceived(s0, old(payloadQueue.chunkMap), p0, n);
        if !step {
          return;
        }
      }
    }

    /** The first `n` TSNs of the buffer followed `p0` without a gap and have been popped. */
    ghost predicate Passed(s0: seq<u32>, m0: map<u32, ChunkPayloadData>, p0: u32, n: nat)
      reads this`peerLastTsn, payloadQueue
    {
      DroppedHead(payloadQueue, s0, m0, n)
      && (forall j :: 0 <= j < n ==> s0[j] == Add32(p0, j + 1))
      && peerLastTsn == Add32(p0, n)
    }

    /** The body of that loop: pop the TSN after the peer's cumulative TSN, and step over it. */
    method PopReceived(ghost s0: seq<u32>, ghost m0: map<u32, ChunkPayloadData>, ghost p0: u32, ghost n: nat)
      returns (step: bool, ghost n': nat)
      requires Valid() && Passed(s0, m0, p0, n)
      modifies this`peerLastTsn, payloadQueue`sorted, payloadQueue`chunkMap, payloadQueue`nBytes
      ensures Valid()
      ensures step ==> n' == n + 1 && Passed(s0, m0, p0, n') && |payloadQueue.sorted| < old(|payloadQueue.sorted|)
      ensures !step ==> n' == n && Advanced(s0, m0, p0, n)
    {
      n' := n;
      var popped := payloadQueue.Pop(Add32(peerLastTsn, 1));
      if popped.None? {
        return false, n';
      }
      assert s0[n] == Add32(p0, n + 1) by {
        AddStep(p0, n);
      }
      assert s0[n + 1..] == s0[n..][1..];
      peerLastTsn := Add32(peerLastTsn, 1);
      step, n' := true, n + 1;
    }

    /** The trigger `AckDecision` picks has been set, and the other is as it was. */
    ghost predicate Triggered(sackImmediately: bool, hasPacketLoss: bool, delayed0: bool, immediate0: bool)
      reads this
    {
      var trigger := AckDecision(ackState, sackImmediately, hasPacketLoss, ackMode);
      (trigger == DelayedAck ==> delayedAckTriggered && immediateAckTriggered == immediate0)
      && (trigger == ImmediateAck ==> immediateAckTriggered && delayedAckTriggered == delayed0)
    }

    /** The ack decision at the end of `handle_peer_last_tsn_and_acknowledgement`. */
    method TriggerAck(sackImmediately: bool, hasPacketLoss: bool)
      modifies this`delayedAckTriggered, this`immediateAckTriggered
      ensures Triggered(sackImmediately, hasPacketLoss, old(delayedAckTriggered), old(immediateAckTriggered))
    {
      if (ackState != Immediate && !sackImmediately && !hasPacketLoss && ackMode == Normal) || ackMode == AlwaysDelay {
        if ackState == Idle {
          delayedAckTriggered := true;
        } else {
          immediateAckTriggered := true;
        }
      } else {
        immediateAckTriggered := true;
      }
    }

    /**
     * Whether `handle_data` passes a DATA chunk to its stream: it must be
     * new and ahead of the peer's cumulative TSN, and either the receive
     * window is open or the chunk fills a hole below the newest TSN held.
     */
    ghost predicate MayAccept(d: ChunkPayloadData)
      requires Valid()
      reads this`maxReceiveBufferSize, this`streams, this`peerLastTsn, payloadQueue, inflightQueue
    {
      var last := payloadQueue.GetLastTsnReceived();
      payloadQueue.CanPush(d, peerLastTsn)
      && (SaturatingSub(maxReceiveBufferSize, Total(streams) % 0x1_0000_0000) > 0
          || (last.Some? && Lt32(d.tsn, last.value)))
    }

    /**
     * The first part of `handle_data`: an accepted chunk goes into the
     * receive buffer and its bytes onto its stream, and a datagram-received
     * event is queued. The stream is created for any chunk that can be
     * pushed. The duplicate log is never written here, since `push` is only
     * called once `can_push` said the TSN is new.
     */
    method ReceiveData(d: ChunkPayloadData) returns (accepted: bool, ghost at: nat)
      requires Valid()
      modifies this`streams, this`streamQueue, this`events,
               payloadQueue`sorted, payloadQueue`chunkMap, payloadQueue`nBytes, payloadQueue`dupTsn
      ensures Valid()
      ensures accepted == old(MayAccept(d))
      ensures payloadQueue.dupTsn == old(payloadQueue.dupTsn)
      ensures !old(payloadQueue.CanPush(d, peerLastTsn)) ==>
                streams == old(streams) && streamQueue == old(streamQueue) && events == old(events)
      ensures old(payloadQueue.CanPush(d, peerLastTsn)) ==>
                var created := d.streamIdentifier !in old(streams);
                streamQueue == old(streamQueue) + (if created then [d.streamIdentifier] else [])
                && events == old(events) + (if created then [StreamOpened] else []) + (if accepted then [DatagramReceived] else [])
                && streams == Credit(old(streams), d.streamIdentifier, if accepted then |d.userData| else 0)
      ensures accepted ==>
                payloadQueue.chunkMap == old(payloadQueue.chunkMap)[d.tsn := d]
                && payloadQueue.nBytes == old(payloadQueue.nBytes) + |d.userData|
                && PlacedAt(old(payloadQueue.sorted), d.tsn, at)
                && payloadQueue.sorted == Inserted(old(payloadQueue.sorted), d.tsn, at)
      ensures !accepted ==>
                payloadQueue.chunkMap == old(payloadQueue.chunkMap) && payloadQueue.sorted == old(payloadQueue.sorted)
                && payloadQueue.nBytes == old(payloadQueue.nBytes)
    {
      at := 0;
      accepted := false;
      if !payloadQueue.CanPush(d, peerLastTsn) {
        return;
      }
      ghost var streams0 := streams;
      accepted, at := OpenStreamAndPush(d);
      if accepted {
        events := events + [DatagramReceived];
        CreditAfterCreate(streams0, d.streamIdentifier, |d.userData|);
        streams := Credit(streams, d.streamIdentifier, |d.userData|);
      }
    }

    /** `get_or_create_stream`, then the push of `handle_data` against the receive window credit. */
    method OpenStreamAndPush(d: ChunkPayloadData) returns (accepted: bool, ghost at: nat)
      requires Valid() && payloadQueue.CanPush(d, peerLastTsn)
      modifies this`streams, this`streamQueue, this`events,
               payloadQueue`sorted, payloadQueue`chunkMap, payloadQueue`nBytes, payloadQueue`dupTsn
      ensures Valid()
      ensures accepted == old(MayAccept(d))
      ensures payloadQueue.dupTsn == old(payloadQueue.dupTsn)
      ensures var created := d.streamIdentifier !in old(streams);
              streamQueue == old(streamQueue) + (if created then [d.streamIdentifier] else [])
              && events == old(events) + (if created then [StreamOpened] else [])
              && streams == Credit(old(streams), d.streamIdentifier, 0)
      ensures accepted ==>
                payloadQueue.chunkMap == old(payloadQueue.chunkMap)[d.tsn := d]
                && payloadQueue.nBytes == old(payloadQueue.nBytes) + |d.userData|
                && PlacedAt(old(payloadQueue.sorted), d.tsn, at)
                && payloadQueue.sorted == Inserted(old(payloadQueue.sorted), d.tsn, at)
      ensures !accepted ==>
                payloadQueue.chunkMap == old(payloadQueue.chunkMap) && payloadQueue.sorted == old(payloadQueue.sorted)
                && payloadQueue.nBytes == old(payloadQueue.nBytes)
    {
      GetOrCreateStream(d.streamIdentifier);
      var credit := GetMyReceiverWindowCredit();
      accepted, at := PushIfRoom(d, credit);
    }

    /** The push of `handle_data`: with the window closed only a chunk below the newest TSN held is taken. */
    method PushIfRoom(d: ChunkPayloadData, credit: u32) returns (accepted: bool, ghost at: nat)
      requires Valid() && payloadQueue.CanPush(d, peerLastTsn)
      modifies payloadQueue`sorted, payloadQueue`chunkMap, payloadQueue`nBytes, payloadQueue`dupTsn
      ensures Valid()
      ensures var last := old(payloadQueue.GetLastTsnReceived());
              accepted == (credit > 0 || (last.Some? && Lt32(d.tsn, last.value)))
      ensures payloadQueue.dupTsn == old(payloadQueue.dupTsn)
      ensures accepted ==>
                payloadQueue.chunkMap == old(payloadQueue.chunkMap)[d.tsn := d]
                && payloadQueue.nBytes == old(payloadQueue.nBytes) + |d.userData|
                && PlacedAt(old(payloadQueue.sorted), d.tsn, at)
                && payloadQueue.sorted == Inserted(old(payloadQueue.sorted), d.tsn, at)
      ensures !accepted ==>
                payloadQueue.chunkMap == old(payloadQueue.chunkMap) && payloadQueue.sorted == old(payloadQueue.sorted)
                && payloadQueue.nBytes == old(payloadQueue.nBytes)
    {
      at := 0;
      accepted := false;
      if credit > 0 {
        accepted, at := payloadQueue.Push(d, peerLastTsn);
      } else {
        var last := payloadQueue.GetLastTsnReceived();
        if last.Some? && Lt32(d.tsn, last.value) {
          accepted, at := payloadQueue.Push(d, peerLastTsn);
        }
      }
    }

    /**
     * `handle_data` (section 6.2 of RFC 4960): receive the chunk, then
     * advance the peer's cumulative TSN and trigger a SACK, immediate when
     * the sender set the I bit.
     */
    method HandleData(d: ChunkPayloadData) returns (r: Result<seq<Packet>>, ghost accepted: bool, ghost at: nat, ghost n: nat)
      requires Valid()
      modifies this`streams, this`streamQueue, this`events, this`peerLastTsn,
               this`delayedAckTriggered, this`immediateAckTriggered,
               payloadQueue`sorted, payloadQueue`chunkMap, payloadQueue`nBytes, payloadQueue`dupTsn
      ensures Valid() && r == Ok([])
      ensures accepted == old(MayAccept(d))
      ensures !old(payloadQueue.CanPush(d, peerLastTsn)) ==>
                streams == old(streams) && streamQueue == old(streamQueue) && events == old(events)
      ensures old(payloadQueue.CanPush(d, peerLastTsn)) ==>
                var created := d.streamIdentifier !in old(streams);
                streamQueue == old(streamQueue) + (if created then [d.streamIdentifier] else [])
                && events == old(events) + (if created then [StreamOpened] else []) + (if accepted then [DatagramReceived] else [])
                && streams == Credit(old(streams), d.streamIdentifier, if accepted then |d.userData| else 0)
      ensures accepted ==>
                PlacedAt(old(payloadQueue.sorted), d.tsn, at)
                && Advanced(Inserted(old(payloadQueue.sorted), d.tsn, at), old(payloadQueue.chunkMap)[d.tsn := d], old(peerLastTsn), n)
      ensures !accepted ==> Advanced(old(payloadQueue.sorted), old(payloadQueue.chunkMap), old(peerLastTsn), n)
      ensures Triggered(d.immediateSack, payloadQueue.sorted != [], old(delayedAckTriggered), old(immediateAckTriggered))
    {
      accepted, at := ReceiveData(d);
      r, n := HandlePeerLastTsnAndAcknowledgement(d.immediateSack);
    }

    /**
     * The loop of `handle_forward_tsn` that moves the peer's cumulative TSN
     * up to the new one, dropping each TSN it passes that is at the head of
     * the receive buffer. When the new TSN is not serially ahead (it is half
     * the circle away) the loop does not run.
     */
    method SkipToNewCumulativeTsn(newCumulativeTsn: u32) returns (ghost n: nat)
      requires Valid()
      modifies this`peerLastTsn, payloadQueue`sorted, payloadQueue`chunkMap, payloadQueue`nBytes
      ensures Valid()
      ensures DroppedHead(payloadQueue, old(payloadQueue.sorted), old(payloadQueue.chunkMap), n)
      ensures Lt32(old(peerLastTsn), newCumulativeTsn) ==> peerLastTsn == newCumulativeTsn
      ensures !Lt32(old(peerLastTsn), newCumulativeTsn) ==> peerLastTsn == old(peerLastTsn) && n == 0
    {
      ghost var s0 := payloadQueue.sorted;
      ghost var p0 := peerLastTsn;
      ghost var len := ForwardRunLength(p0, newCumulativeTsn);
      ghost var steps := 0;
      n := 0;
      ForwardRunGuard(p0, newCumulativeTsn, 0);
      while Lt32(peerLastTsn, newCumulativeTsn)
        invariant Valid()
        invariant DroppedHead(payloadQueue, s0, old(payloadQueue.chunkMap), n)
        invariant n <= steps <= len && peerLastTsn == Add32(p0, steps)
        invariant Lt32(peerLastTsn, newCumulativeTsn) <==> steps < len
        decreases len - steps
      {
        n := SkipOne(s0, old(payloadQueue.chunkMap), n);
        AddStep(p0, steps);
        steps := steps + 1;
        ForwardRunGuard(p0, newCumulativeTsn, steps);
      }
      ForwardRunGuard(p0, newCumulativeTsn, steps);
    }

    /** One step of that loop: drop the next TSN if it heads the buffer, and count it. */
    method SkipOne(ghost s0: seq<u32>, ghost m0: map<u32, ChunkPayloadData>, ghost n: nat) returns (ghost n': nat)
      requires Valid() && DroppedHead(payloadQueue, s0, m0, n)
      modifies this`peerLastTsn, payloadQueue`sorted, payloadQueue`chunkMap, payloadQueue`nBytes
      ensures Valid() && DroppedHead(payloadQueue, s0, m0, n') && (n' == n || n' == n + 1)
      ensures peerLastTsn == Add32(old(peerLastTsn), 1)
    {
      n' := n;
      var popped := payloadQueue.Pop(Add32(peerLastTsn, 1));
      if popped.Some? {
        assert s0[n + 1..] == s0[n..][1..];
        n' := n + 1;
      }
      peerLastTsn := Add32(peerLastTsn, 1);
    }

    /**
     * `handle_forward_tsn` (section 3.6 of RFC 3758): without the extension
     * negotiated it answers with an "Unrecognized Chunk Type" error; an
     * out-of-date FORWARD TSN asks for an immediate SACK; otherwise the
     * peer's cumulative TSN moves to the new one and on over the received
     * TSNs that follow, as after DATA, with no immediate SACK requested.
     */
    method HandleForwardTsn(c: ChunkForwardTsn) returns (r: Result<seq<Packet>>, ghost skipped: nat, ghost n: nat)
      requires Valid()
      modifies this`ackState, this`timers, this`peerLastTsn, this`delayedAckTriggered, this`immediateAckTriggered,
               payloadQueue`sorted, payloadQueue`chunkMap, payloadQueue`nBytes
      ensures Valid()
      ensures !old(useForwardTsn) ==>
                r == Ok([CreatePacket([OperationError([UNRECOGNIZED_CHUNK_TYPE])])]) && unchanged(this) && unchanged(payloadQueue)
      ensures old(useForwardTsn) && Lte32(c.newCumulativeTsn, old(peerLastTsn)) ==>
                r == Ok([]) && ackState == Immediate && timers == old(timers) - {Ack} && peerLastTsn == old(peerLastTsn)
                && delayedAckTriggered == old(delayedAckTriggered) && immediateAckTriggered == old(immediateAckTriggered)
                && unchanged(payloadQueue)
      ensures old(useForwardTsn) && !Lte32(c.newCumulativeTsn, old(peerLastTsn)) ==>
                var p1 := if Lt32(old(peerLastTsn), c.newCumulativeTsn) then c.newCumulativeTsn else old(peerLastTsn);
                r == Ok([]) && ackState == old(ackState) && timers == old(timers)
                && skipped <= |old(payloadQueue.sorted)| && (p1 == old(peerLastTsn) ==> skipped == 0)
                && Advanced(old(payloadQueue.sorted)[skipped..], old(payloadQueue.chunkMap), p1, n)
                && Triggered(false, payloadQueue.sorted != [], old(delayedAckTriggered), old(immediateAckTriggered))
    {
      skipped, n := 0, 0;
      if !useForwardTsn {
        return Ok([CreatePacket([OperationError([UNRECOGNIZED_CHUNK_TYPE])])]), skipped, n;
      }
      if Lte32(c.newCumulativeTsn, peerLastTsn) {
        ackState := Immediate;
        timers := timers - {Ack};
        return Ok([]), skipped, n;
      }
      skipped := SkipToNewCumulativeTsn(c.newCumulativeTsn);
      r, n := HandlePeerLastTsnAndAcknowledgement(false);
    }

    /** The sender state the cumulative-ack loop changes. */
    ghost function Snapshot(): Outstanding
      reads this`minTsn2measureRtt, this`inFastRecovery, this`timers, inflightQueue
    {
      Outstanding(inflightQueue.sorted, inflightQueue.chunkMap, inflightQueue.nBytes, minTsn2measureRtt, inFastRecovery, timers)
    }

    /** One step of the cumulative-ack loop of `process_selective_ack`: pop TSN `i`, which must head the in-flight queue. */
    method AckCumulativeTsn(i: u32, first: bool, bytes: map<u16, nat>) returns (ok: bool, bytes': map<u16, nat>)
      requires Valid()
      modifies this`timers, this`minTsn2measureRtt, this`inFastRecovery,
               inflightQueue`sorted, inflightQueue`chunkMap, inflightQueue`nBytes
      ensures Valid()
      ensures ok <==> old(|inflightQueue.sorted| > 0 && inflightQueue.sorted[0] == i)
      ensures !ok ==> unchanged(this) && unchanged(inflightQueue)
      ensures ok ==> PoppedHead(old(Snapshot()), Snapshot(), bytes, bytes', myNextTsn, fastRecoverExitPoint, first)
    {
      ghost var s := Snapshot();
      bytes' := bytes;
      var popped := inflightQueue.Pop(i);
      ok := popped.Some?;
      if ok {
        assert popped.value == s.chunkMap[s.sorted[0]];
        bytes' := AckPopped(popped.value, first, bytes);
      }
    }

    /** What the cumulative-ack loop does with the chunk it popped. */
    method AckPopped(chunk: ChunkPayloadData, first: bool, bytes: map<u16, nat>) returns (bytes': map<u16, nat>)
      requires Valid()
      modifies this`timers, this`minTsn2measureRtt, this`inFastRecovery
      ensures Valid()
      ensures bytes' == (if chunk.acked then bytes else Credit(bytes, chunk.streamIdentifier, |chunk.userData|))
      ensures minTsn2measureRtt == (if !chunk.acked && chunk.nsent == 1 && Gte32(chunk.tsn, old(minTsn2measureRtt))
                                    then myNextTsn else old(minTsn2measureRtt))
      ensures inFastRecovery == (old(inFastRecovery) && chunk.tsn != fastRecoverExitPoint)
      ensures timers == (if first && !chunk.acked then old(timers) - {T3Rtx} else old(timers))
    {
      bytes' := bytes;
      if !chunk.acked {
        if first {
          timers := timers - {T3Rtx};
        }
        bytes' := Credit(bytes', chunk.streamIdentifier, |chunk.userData|);
        if chunk.nsent == 1 && Gte32(chunk.tsn, minTsn2measureRtt) {
          minTsn2measureRtt := myNextTsn;
        }
      }
      if inFastRecovery && chunk.tsn == fastRecoverExitPoint {
        inFastRecovery := false;
      }
    }

    /** The body of the cumulative-ack loop: pop TSN `i` and step to the next one. */
    method PopCumulativeStep(target: u32, i: u32, bytes: map<u16, nat>, ghost s0: Outstanding, ghost popped: seq<ChunkPayloadData>)
      returns (step: bool, i': u32, bytes': map<u16, nat>, ghost popped': seq<ChunkPayloadData>)
      requires Valid() && Popping(target, i, cumulativeTsnAckPoint, s0, Snapshot(), popped, bytes, myNextTsn, fastRecoverExitPoint)
      requires Lte32(i, target)
      modifies this`timers, this`minTsn2measureRtt, this`inFastRecovery,
               inflightQueue`sorted, inflightQueue`chunkMap, inflightQueue`nBytes
      ensures Valid()
      ensures !step ==> !HeadsRun(s0.sorted, cumulativeTsnAckPoint, target)
      ensures step ==> |popped'| == |popped| + 1 && Popping(target, i', cumulativeTsnAckPoint, s0, Snapshot(), popped', bytes', myNextTsn, fastRecoverExitPoint)
    {
      ghost var s := Snapshot();
      PoppingHead(target, i, cumulativeTsnAckPoint, s0, s, popped, bytes, myNextTsn, fastRecoverExitPoint);
      var first := i == Add32(cumulativeTsnAckPoint, 1);
      step, bytes' := AckCumulativeTsn(i, first, bytes);
      i' := Add32(i, 1);
      popped' := popped;
      if step {
        PoppingStep(target, i, cumulativeTsnAckPoint, s0, s, popped, bytes, myNextTsn, fastRecoverExitPoint, Snapshot(), bytes');
        popped' := popped + [s.chunkMap[i]];
      }
    }

    /**
     * The first loop of `process_selective_ack`: pop every TSN from the
     * cumulative TSN ack point up to the SACK's cumulative TSN ack. It fails
     * with `ErrInflightQueueTsnPop` exactly when those TSNs are not the
     * head of the in-flight queue, in order.
     */
    method PopCumulativelyAcked(target: u32) returns (ok: bool, bytes: map<u16, nat>, ghost popped: seq<ChunkPayloadData>)
      requires Valid()
      modifies this`timers, this`minTsn2measureRtt, this`inFastRecovery,
               inflightQueue`sorted, inflightQueue`chunkMap, inflightQueue`nBytes
      ensures Valid()
      ensures ok <==> HeadsRun(old(inflightQueue.sorted), cumulativeTsnAckPoint, target)
      ensures ok ==> |popped| == AckedRunLength(cumulativeTsnAckPoint, target)
                     && CumulativeFold(old(Snapshot()), Snapshot(), popped, bytes, myNextTsn, fastRecoverExitPoint)
    {
      ghost var s0 := Snapshot();
      bytes, popped := map[], [];
      var i := Add32(cumulativeTsnAckPoint, 1);
      PoppingStarts(target);
      ok := true;
      ghost var len := AckedRunLength(cumulativeTsnAckPoint, target);
      while Lte32(i, target)
        invariant Valid()
        invariant Popping(target, i, cumulativeTsnAckPoint, s0, Snapshot(), popped, bytes, myNextTsn, fastRecoverExitPoint)
        invariant |popped| <= len
        decreases len - |popped|
      {
        ok, i, bytes, popped := PopCumulativeStep(target, i, bytes, s0, popped);
        if !ok {
          break;
        }
      }
      if ok {
        PoppedAll(target, i, s0, popped, bytes);
      }
    }

    /** The cumulative-ack loop starts at the TSN after the ack point, with nothing popped. */
    lemma PoppingStarts(target: u32)
      ensures Popping(target, Add32(cumulativeTsnAckPoint, 1), cumulativeTsnAckPoint, Snapshot(), Snapshot(), [], map[], myNextTsn, fastRecoverExitPoint)
    {
      AckedRunGuard(cumulativeTsnAckPoint, target, 0);
      assert inflightQueue.sorted[0..] == inflightQueue.sorted;
    }

    /** When the cumulative-ack loop ends without a failed pop, it popped the whole run, which headed the queue. */
    lemma PoppedAll(target: u32, i: u32, s0: Outstanding, popped: seq<ChunkPayloadData>, bytes: map<u16, nat>)
      requires Popping(target, i, cumulativeTsnAckPoint, s0, Snapshot(), popped, bytes, myNextTsn, fastRecoverExitPoint) && !Lte32(i, target)
      ensures |popped| == AckedRunLength(cumulativeTsnAckPoint, target)
      ensures HeadsRun(s0.sorted, cumulativeTsnAckPoint, target)
      ensures CumulativeFold(s0, Snapshot(), popped, bytes, myNextTsn, fastRecoverExitPoint)
    {
      HeadsRunAll(s0.sorted, cumulativeTsnAckPoint, target, |popped|);
    }

    /** The state the gap ack blocks of a SACK change, with the bytes acked so far and the HTNA. */
    ghost function GapState(bytes: map<u16, nat>, htna: u32): GapScan
      reads this`minTsn2measureRtt, inflightQueue
    {
      GapScan(inflightQueue.chunkMap, bytes, minTsn2measureRtt, htna)
    }

    /**
     * One TSN of a gap ack block in `process_selective_ack`: a chunk not
     * acknowledged before is marked acknowledged and its bytes credited to
     * its stream. It fails with `ErrTsnRequestNotExist` when the TSN is
     * not in flight.
     */
    method AckGapTsn(tsn: u32, bytes: map<u16, nat>, htna: u32) returns (ok: bool, bytes': map<u16, nat>, htna': u32)
      requires Valid()
      modifies this`minTsn2measureRtt, inflightQueue`chunkMap, inflightQueue`nBytes
      ensures Valid()
      ensures ok <==> tsn in old(inflightQueue.chunkMap)
      ensures ok ==> GapState(bytes', htna') == GapStep(old(GapState(bytes, htna)), tsn, myNextTsn)
    {
      bytes', htna' := bytes, htna;
      var existing := inflightQueue.Get(tsn);
      var isExisted := existing.Some?;
      var isAcked := existing.Some? && existing.value.acked;
      var nBytesAcked := 0;
      if isExisted && !isAcked {
        nBytesAcked := inflightQueue.MarkAsAcked(tsn);
      }
      var after := inflightQueue.Get(tsn);
      if after.None? {
        return false, bytes', htna';
      }
      var c := after.value;
      if !isAcked {
        bytes' := Credit(bytes', c.streamIdentifier, nBytesAcked);
        if c.nsent == 1 {
          minTsn2measureRtt := myNextTsn;
        }
        if Lt32(htna', tsn) {
          htna' := tsn;
        }
      }
      ok := true;
    }

    /** The body of the loop over one gap ack block: the TSN at offset `k`, the `k - g.start`-th of the block. */
    method AckGapBlockStep(cumulativeTsnAck: u32, g: GapAckBlock, k: int, bytes: map<u16, nat>, htna: u32, ghost s0: GapScan)
      returns (step: bool, bytes': map<u16, nat>, htna': u32)
      requires Valid() && g.start <= k <= g.end
      requires var ts := BlockTsns(cumulativeTsnAck, g);
               GapState(bytes, htna) == GapFold(ts[..k - g.start], s0, myNextTsn)
      modifies this`minTsn2measureRtt, inflightQueue`chunkMap, inflightQueue`nBytes
      ensures Valid()
      ensures var ts := BlockTsns(cumulativeTsnAck, g);
              (step <==> ts[k - g.start] in s0.chunks)
              && (step ==> GapState(bytes', htna') == GapFold(ts[..k - g.start + 1], s0, myNextTsn))
    {
      GapBlockNext(cumulativeTsnAck, g, k, s0, GapState(bytes, htna), myNextTsn);
      GapBlockKeys(cumulativeTsnAck, g, k, s0, GapState(bytes, htna), myNextTsn);
      step, bytes', htna' := AckGapTsn(Add32(cumulativeTsnAck, k), bytes, htna);
    }

    /** The TSNs of one gap ack block, in order; fails when one of them is not in flight. */
    method AckGapBlock(cumulativeTsnAck: u32, g: GapAckBlock, bytes: map<u16, nat>, htna: u32)
      returns (ok: bool, bytes': map<u16, nat>, htna': u32)
      requires Valid()
      modifies this`minTsn2measureRtt, inflightQueue`chunkMap, inflightQueue`nBytes
      ensures Valid()
      ensures ok <==> AllInFlight(BlockTsns(cumulativeTsnAck, g), old(inflightQueue.chunkMap))
      ensures ok ==> GapState(bytes', htna') == GapFold(BlockTsns(cumulativeTsnAck, g), old(GapState(bytes, htna)), myNextTsn)
    {
      ghost var ts := BlockTsns(cumulativeTsnAck, g);
      ghost var s0 := GapState(bytes, htna);
      bytes', htna' := bytes, htna;
      var k: int := g.start;
      ok := true;
      while k <= g.end
        invariant Valid() && ok
        invariant g.start <= k && (k - g.start <= |ts|)
        invariant forall j :: 0 <= j < k - g.start ==> ts[j] in s0.chunks
        invariant GapState(bytes', htna') == GapFold(ts[..k - g.start], s0, myNextTsn)
        decreases g.end - k
      {
        var step;
        step, bytes', htna' := AckGapBlockStep(cumulativeTsnAck, g, k, bytes', htna', s0);
        if !step {
          ok := false;
          break;
        }
        assert forall j :: 0 <= j < k + 1 - g.start ==> ts[j] in s0.chunks;
        k := k + 1;
      }
      if ok {
        assert ts[..k - g.start] == ts;
      }
    }

    /** The body of the loop over the gap ack blocks: block `b`. */
    method AckGapBlocksStep(cumulativeTsnAck: u32, blocks: seq<GapAckBlock>, b: nat, bytes: map<u16, nat>, htna: u32, ghost s0: GapScan)
      returns (step: bool, bytes': map<u16, nat>, htna': u32)
      requires Valid() && b < |blocks|
      requires var ts := GapTsns(cumulativeTsnAck, blocks[..b]);
               (forall j :: 0 <= j < |ts| ==> ts[j] in s0.chunks)
               && GapState(bytes, htna) == GapFold(ts, s0, myNextTsn)
      modifies this`minTsn2measureRtt, inflightQueue`chunkMap, inflightQueue`nBytes
      ensures Valid()
      ensures var ts := GapTsns(cumulativeTsnAck, blocks[..b + 1]);
              (step <==> forall j :: 0 <= j < |ts| ==> ts[j] in s0.chunks)
              && (step ==> GapState(bytes', htna') == GapFold(ts, s0, myNextTsn))
    {
      ghost var done := GapTsns(cumulativeTsnAck, blocks[..b]);
      ghost var block := BlockTsns(cumulativeTsnAck, blocks[b]);
      GapFoldAcknowledges(done, s0, myNextTsn);
      GapTsnsStep(cumulativeTsnAck, blocks, b);
      GapFoldAppend(done, block, s0, myNextTsn);
      GapBlockCovered(done, block, s0.chunks, inflightQueue.chunkMap);
      step, bytes', htna' := AckGapBlock(cumulativeTsnAck, blocks[b], bytes, htna);
    }

    /** The gap ack blocks of a SACK, block by block. */
    method AckGapBlocks(cumulativeTsnAck: u32, blocks: seq<GapAckBlock>, bytes: map<u16, nat>, htna: u32)
      returns (ok: bool, bytes': map<u16, nat>, htna': u32)
      requires Valid()
      modifies this`minTsn2measureRtt, inflightQueue`chunkMap, inflightQueue`nBytes
      ensures Valid()
      ensures ok <==> AllInFlight(GapTsns(cumulativeTsnAck, blocks), old(inflightQueue.chunkMap))
      ensures ok ==> GapState(bytes', htna') == GapFold(GapTsns(cumulativeTsnAck, blocks), old(GapState(bytes, htna)), myNextTsn)
      ensures inflightQueue.sorted == old(inflightQueue.sorted) && inFastRecovery == old(inFastRecovery) && timers == old(timers)
    {
      ghost var s0 := GapState(bytes, htna);
      bytes', htna' := bytes, htna;
      var b := 0;
      assert blocks[..0] == [];
      ok := true;
      while b < |blocks|
        invariant Valid() && ok
        invariant b <= |blocks|
        invariant var ts := GapTsns(cumulativeTsnAck, blocks[..b]);
                  (forall j :: 0 <= j < |ts| ==> ts[j] in s0.chunks)
                  && GapState(bytes', htna') == GapFold(ts, s0, myNextTsn)
      {
        var step;
        step, bytes', htna' := AckGapBlocksStep(cumulativeTsnAck, blocks, b, bytes', htna', s0);
        if !step {
          GapTsnsPrefix(cumulativeTsnAck, blocks, b + 1);
          ok := false;
          break;
        }
        b := b + 1;
      }
      if ok {
        assert blocks[..b] == blocks;
      }
    }

    /**
     * `process_selective_ack`: pop the chunks the cumulative TSN ack covers,
     * then mark the chunks the gap ack blocks cover, returning the bytes
     * acknowledged per stream and the highest TSN newly acknowledged (HTNA).
     * `mid` is the sender state between the two loops.
     */
    method ProcessSelectiveAck(d: ChunkSelectiveAck) returns (r: Result<(map<u16, nat>, u32)>, ghost popped: seq<ChunkPayloadData>, ghost mid: Outstanding)
      requires Valid()
      modifies this`timers, this`minTsn2measureRtt, this`inFastRecovery,
               inflightQueue`sorted, inflightQueue`chunkMap, inflightQueue`nBytes
      ensures Valid()
      ensures r == Err(ErrInflightQueueTsnPop) <==> !HeadsRun(old(inflightQueue.sorted), cumulativeTsnAckPoint, d.cumulativeTsnAck)
      ensures r != Err(ErrInflightQueueTsnPop) ==>
                |popped| == AckedRunLength(cumulativeTsnAckPoint, d.cumulativeTsnAck)
                && CumulativeFold(old(Snapshot()), mid, popped, AckedPerStream(popped), myNextTsn, fastRecoverExitPoint)
                && (r.Ok? <==> AllInFlight(GapTsns(d.cumulativeTsnAck, d.gapAckBlocks), mid.chunkMap))
      ensures r.Err? ==> r.error == ErrInflightQueueTsnPop || r.error == ErrTsnRequestNotExist
      ensures r.Ok? ==>
                var fin := GapFold(GapTsns(d.cumulativeTsnAck, d.gapAckBlocks),
                                   GapScan(mid.chunkMap, AckedPerStream(popped), mid.rttMark, d.cumulativeTsnAck), myNextTsn);
                GapState(r.value.0, r.value.1) == fin
                && inflightQueue.sorted == mid.sorted && inFastRecovery == mid.inFastRecovery && timers == mid.timers
      ensures r.Ok? && old(AckedHoldNothing(inflightQueue.chunkMap)) ==>
                Total(r.value.0) + inflightQueue.nBytes == old(inflightQueue.nBytes)
                && AckedHoldNothing(inflightQueue.chunkMap)
    {
      ghost var s0 := Snapshot();
      var ok, bytes;
      ok, bytes, popped := PopCumulativelyAcked(d.cumulativeTsnAck);
      mid := Snapshot();
      r := AckSackGaps(d, ok, bytes, s0, mid, popped);
    }

    /**
     * The gap ack block half of `process_selective_ack`, after the
     * cumulative half popped `popped` from `s0` (or failed, `!poppedOk`):
     * the TSNs the blocks cover are acknowledged as `GapFold` says,
     * starting from the bytes acked per stream so far and the SACK's
     * cumulative TSN ack as the HTNA.
     */
    method AckSackGaps(d: ChunkSelectiveAck, poppedOk: bool, bytes: map<u16, nat>, ghost s0: Outstanding, ghost mid: Outstanding,
                       ghost popped: seq<ChunkPayloadData>)
      returns (r: Result<(map<u16, nat>, u32)>)
      requires Valid() && mid == Snapshot() && (poppedOk ==> CumulativeFold(s0, mid, popped, bytes, myNextTsn, fastRecoverExitPoint))
      modifies this`minTsn2measureRtt, inflightQueue`chunkMap, inflightQueue`nBytes
      ensures Valid()
      ensures r == Err(ErrInflightQueueTsnPop) <==> !poppedOk
      ensures r.Err? ==> r.error == ErrInflightQueueTsnPop || r.error == ErrTsnRequestNotExist
      ensures poppedOk ==> (r.Ok? <==> AllInFlight(GapTsns(d.cumulativeTsnAck, d.gapAckBlocks), mid.chunkMap))
      ensures r.Ok? ==>
                GapState(r.value.0, r.value.1)
                  == GapFold(GapTsns(d.cumulativeTsnAck, d.gapAckBlocks),
                             GapScan(mid.chunkMap, bytes, mid.rttMark, d.cumulativeTsnAck), myNextTsn)
      ensures r.Ok? && AckedHoldNothing(s0.chunkMap) ==>
                Total(r.value.0) + inflightQueue.nBytes == s0.nBytes && AckedHoldNothing(inflightQueue.chunkMap)
      ensures inflightQueue.sorted == mid.sorted && inFastRecovery == mid.inFastRecovery && timers == mid.timers
    {
      if !poppedOk {
        r := Err(ErrInflightQueueTsnPop);
      } else {
        if AckedHoldNothing(s0.chunkMap) {
          CumulativeConserves(s0, mid, popped, bytes, myNextTsn, fastRecoverExitPoint);
        }
        r := AckGaps(d, bytes, mid);
      }
    }

    /** `AckSackGaps` once the cumulative half succeeded. */
    method AckGaps(d: ChunkSelectiveAck, bytes: map<u16, nat>, ghost mid: Outstanding)
      returns (r: Result<(map<u16, nat>, u32)>)
      requires Valid() && mid == Snapshot()
      modifies this`minTsn2measureRtt, inflightQueue`chunkMap, inflightQueue`nBytes
      ensures Valid()
      ensures r.Err? ==> r.error == ErrTsnRequestNotExist
      ensures r.Ok? <==> AllInFlight(GapTsns(d.cumulativeTsnAck, d.gapAckBlocks), mid.chunkMap)
      ensures r.Ok? ==>
                GapState(r.value.0, r.value.1)
                  == GapFold(GapTsns(d.cumulativeTsnAck, d.gapAckBlocks),
                             GapScan(mid.chunkMap, bytes, mid.rttMark, d.cumulativeTsnAck), myNextTsn)
      ensures r.Ok? && AckedHoldNothing(mid.chunkMap) ==>
                Total(r.value.0) + inflightQueue.nBytes == Total(bytes) + mid.nBytes && AckedHoldNothing(inflightQueue.chunkMap)
      ensures inflightQueue.sorted == mid.sorted && inFastRecovery == mid.inFastRecovery && timers == mid.timers
    {
      if AckedHoldNothing(mid.chunkMap) {
        GapsConserve(mid, bytes, myNextTsn, GapTsns(d.cumulativeTsnAck, d.gapAckBlocks), d.cumulativeTsnAck);
      }
      var gapsOk, bytes', htna := AckGapBlocks(d.cumulativeTsnAck, d.gapAckBlocks, bytes, d.cumulativeTsnAck);
      if !gapsOk {
        r := Err(ErrTsnRequestNotExist);
      } else {
        ghost var fin := GapFold(GapTsns(d.cumulativeTsnAck, d.gapAckBlocks),
                                 GapScan(mid.chunkMap, bytes, mid.rttMark, d.cumulativeTsnAck), myNextTsn);
        assert inflightQueue.chunkMap == fin.chunks && bytes' == fin.bytes;
        assert inflightQueue.nBytes == BytesOf(mid.sorted, fin.chunks);
        r := Ok((bytes', htna));
      }
    }

    /** The sender state fast retransmit changes. */
    ghost function RecoveryState(): Recovery
      reads this`inFastRecovery, this`fastRecoverExitPoint, this`ssthresh, this`cwnd, this`partialBytesAcked, this`willRetransmitFast, inflightQueue`chunkMap
    {
      Recovery(inflightQueue.chunkMap, inFastRecovery, fastRecoverExitPoint, ssthresh, cwnd, partialBytesAcked, willRetransmitFast)
    }

    /** The first `k` TSNs of `ts` have been scanned for miss indications. */
    ghost predicate MissScanned(s0: Recovery, ts: seq<u32>, k: nat, htna: u32)
      reads this`inFastRecovery, this`fastRecoverExitPoint, this`ssthresh, this`cwnd, this`partialBytesAcked, this`willRetransmitFast, this`mtu, inflightQueue
    {
      k <= |ts| && MissFold(ts[..k], s0, htna, mtu).Ok? && RecoveryState() == MissFold(ts[..k], s0, htna, mtu).value
    }

    /** Fast recovery entered at the third miss indication of a chunk: ssthresh and cwnd cut, exit point at the HTNA. */
    method EnterFastRecovery(htna: u32)
      requires Valid()
      modifies this`inFastRecovery, this`fastRecoverExitPoint, this`ssthresh, this`cwnd, this`partialBytesAcked, this`willRetransmitFast
      ensures Valid()
      ensures RecoveryState() == old(RecoveryState()).(inFastRecovery := true, exitPoint := htna,
                ssthresh := LossSsthresh(old(cwnd), mtu), cwnd := LossSsthresh(old(cwnd), mtu),
                partialBytesAcked := 0, willRetransmitFast := true)
    {
      inFastRecovery := true;
      fastRecoverExitPoint := htna;
      ssthresh := LossSsthresh(cwnd, mtu);
      cwnd := ssthresh;
      partialBytesAcked := 0;
      willRetransmitFast := true;
    }

    /** One TSN reported missing, as `MissStep` says; fails when the TSN is not in flight. */
    method MissOne(tsn: u32, htna: u32) returns (ok: bool)
      requires Valid()
      modifies this`inFastRecovery, this`fastRecoverExitPoint, this`ssthresh, this`cwnd, this`partialBytesAcked,
               this`willRetransmitFast, inflightQueue`chunkMap
      ensures Valid()
      ensures ok <==> tsn in old(inflightQueue.chunkMap)
      ensures ok ==> RecoveryState() == MissStep(old(RecoveryState()), tsn, htna, mtu)
    {
      ghost var s := RecoveryState();
      var got := inflightQueue.Get(tsn);
      ok := got.Some?;
      if ok {
        var c := got.value;
        assert c == s.chunks[tsn];
        if !c.acked && !c.abandoned && c.missIndicator < FAST_RETRANSMIT_MISSES {
          var c' := c.(missIndicator := c.missIndicator + 1);
          ghost var s1 := s.(chunks := s.chunks[tsn := c']);
          inflightQueue.SetChunk(tsn, c');
          assert RecoveryState() == s1;
          if c'.missIndicator == FAST_RETRANSMIT_MISSES && !inFastRecovery {
            EnterFastRecovery(htna);
            assert RecoveryState() == s1.(inFastRecovery := true, exitPoint := htna, ssthresh := LossSsthresh(s.cwnd, mtu),
                                          cwnd := LossSsthresh(s.cwnd, mtu), partialBytesAcked := 0, willRetransmitFast := true);
          }
        }
      }
    }

    /** The body of the loop of `process_fast_retransmission`: the `k`-th TSN of the scan, then the next one. */
    method MissScanStep(start: u32, maxTsn: u32, tsn: u32, htna: u32, ghost s0: Recovery, ghost k: nat) returns (ok: bool, tsn': u32)
      requires Valid() && MissScanned(s0, TsnsFrom(start, ForwardRunLength(start, maxTsn)), k, htna)
      requires k < ForwardRunLength(start, maxTsn) && tsn == Add32(start, k)
      modifies this`inFastRecovery, this`fastRecoverExitPoint, this`ssthresh, this`cwnd, this`partialBytesAcked,
               this`willRetransmitFast, inflightQueue`chunkMap
      ensures Valid()
      ensures var ts := TsnsFrom(start, ForwardRunLength(start, maxTsn));
              (ok <==> MissFold(ts[..k + 1], s0, htna, mtu).Ok?)
              && (ok ==> MissScanned(s0, ts, k + 1, htna) && tsn' == Add32(start, k + 1)
                         && (Lt32(tsn', maxTsn) <==> k + 1 < ForwardRunLength(start, maxTsn)))
    {
      ghost var ts := TsnsFrom(start, ForwardRunLength(start, maxTsn));
      assert ts[..k + 1][..k] == ts[..k];
      ok := MissOne(tsn, htna);
      AddStep(start, k);
      tsn' := Add32(tsn, 1);
      ForwardRunGuard(start, maxTsn, k + 1);
    }

    /** The scan of `process_fast_retransmission` from `start` up to, not including, `maxTsn`. */
    method ScanMisses(start: u32, maxTsn: u32, htna: u32) returns (ok: bool)
      requires Valid()
      modifies this`inFastRecovery, this`fastRecoverExitPoint, this`ssthresh, this`cwnd, this`partialBytesAcked,
               this`willRetransmitFast, inflightQueue`chunkMap
      ensures Valid()
      ensures var fin := MissFold(TsnsFrom(start, ForwardRunLength(start, maxTsn)), old(RecoveryState()), htna, mtu);
              (ok <==> fin.Ok?) && (ok ==> RecoveryState() == fin.value)
    {
      ghost var s0 := RecoveryState();
      ghost var n := ForwardRunLength(start, maxTsn);
      ghost var ts := TsnsFrom(start, n);
      ghost var k: nat := 0;
      var tsn := start;
      assert ts[..0] == [];
      ForwardRunGuard(start, maxTsn, 0);
      ok := true;
      while Lt32(tsn, maxTsn)
        invariant Valid() && MissScanned(s0, ts, k, htna)
        invariant k <= n && tsn == Add32(start, k) && (Lt32(tsn, maxTsn) <==> k < n)
        decreases n - k
      {
        var step;
        step, tsn := MissScanStep(start, maxTsn, tsn, htna, s0, k);
        if !step {
          MissFoldErrPrefix(ts, k + 1, s0, htna, mtu);
          ok := false;
          break;
        }
        k := k + 1;
      }
      if ok {
        assert ts[..k] == ts;
      }
    }

    /**
     * `process_fast_retransmission`: outside fast recovery, the TSNs after
     * the cumulative TSN ack and before the HTNA gain a miss indication; in
     * fast recovery, when the ack point advanced, all the TSNs in flight do.
     * It fails with `ErrTsnRequestNotExist` when a scanned TSN is not in
     * flight.
     */
    method ProcessFastRetransmission(cumTsnAckPoint: u32, htna: u32, advanced: bool) returns (r: Result<()>)
      requires Valid()
      modifies this`inFastRecovery, this`fastRecoverExitPoint, this`ssthresh, this`cwnd, this`partialBytesAcked,
               this`willRetransmitFast, inflightQueue`chunkMap
      ensures Valid()
      ensures var maxTsn := if !old(inFastRecovery) then htna
                            else Add32(Add32(cumTsnAckPoint, |old(inflightQueue.sorted)| % TWO_32), 1);
              var ts := if !old(inFastRecovery) || advanced
                        then TsnsFrom(Add32(cumTsnAckPoint, 1), ForwardRunLength(Add32(cumTsnAckPoint, 1), maxTsn)) else [];
              var fin := MissFold(ts, old(RecoveryState()), htna, mtu);
              (r.Err? <==> fin.Err?) && (r.Err? ==> r == Err(ErrTsnRequestNotExist))
              && (r.Ok? ==> RecoveryState() == fin.value.(willRetransmitFast := fin.value.willRetransmitFast
                                                                               || (fin.value.inFastRecovery && advanced)))
    {
      if !inFastRecovery || advanced {
        var count := inflightQueue.Len();
        var maxTsn := if !inFastRecovery then htna else Add32(Add32(cumTsnAckPoint, count % TWO_32), 1);
        var ok := ScanMisses(Add32(cumTsnAckPoint, 1), maxTsn, htna);
        if !ok {
          return Err(ErrTsnRequestNotExist);
        }
      }
      if inFastRecovery && advanced {
        willRetransmitFast := true;
      }
      r := Ok(());
    }

    /**
     * `on_cumulative_tsn_ack_point_advanced`: T3-rtx stops when nothing is
     * left in flight and runs otherwise; at or below ssthresh cwnd grows by
     * slow start, outside fast recovery and with data waiting, and above it
     * by congestion avoidance. The acknowledged byte count is cast to u32.
     */
    method OnCumulativeTsnAckPointAdvanced(totalBytesAcked: nat)
      requires Valid()
      modifies this`timers, this`cwnd, this`partialBytesAcked
      ensures Valid()
      ensures timers == if inflightQueue.sorted == [] then old(timers) - {T3Rtx} else old(timers) + {T3Rtx}
      ensures var acked := totalBytesAcked % TWO_32;
              if old(cwnd) <= ssthresh then
                partialBytesAcked == old(partialBytesAcked)
                && cwnd == (if !inFastRecovery && pendingQueue != [] then SlowStartCwnd(old(cwnd), acked) else old(cwnd))
              else
                Window(cwnd, partialBytesAcked)
                  == CongestionAvoidance(Window(old(cwnd), old(partialBytesAcked)), acked, mtu, pendingQueue != [])
    {
      var empty := inflightQueue.IsEmpty();
      if empty {
        timers := timers - {T3Rtx};
      } else {
        timers := timers + {T3Rtx};
      }
      var acked: u32 := totalBytesAcked % TWO_32;
      if cwnd <= ssthresh {
        if !inFastRecovery && |pendingQueue| > 0 {
          cwnd := Add32(cwnd, Min(acked, cwnd));
        }
      } else {
        partialBytesAcked := Add32(partialBytesAcked, acked);
        if partialBytesAcked >= cwnd && |pendingQueue| > 0 {
          partialBytesAcked := partialBytesAcked - cwnd;
          cwnd := Add32(cwnd, mtu);
        }
      }
    }

    /**
     * Rules C1-C3 of section 3.5 of RFC 3758 in `handle_sack`: the advanced
     * peer ack point catches up with the cumulative TSN ack point, then
     * moves over the run of abandoned chunks that follows it, `n` TSNs
     * long, and a FORWARD TSN is due when it ends up past the cumulative
     * TSN ack point.
     */
    method AdvanceAbandonedAckPoint() returns (ghost n: nat)
      requires Valid() && |inflightQueue.sorted| < TWO_32
      modifies this`advancedPeerTsnAckPoint, this`willSendForwardTsn
      ensures var c1 := if Lt32(old(advancedPeerTsnAckPoint), cumulativeTsnAckPoint) then cumulativeTsnAckPoint
                        else old(advancedPeerTsnAckPoint);
              var chunks := inflightQueue.chunkMap;
              AbandonedRun(chunks, c1, n)
              && !(Add32(c1, n + 1) in chunks && chunks[Add32(c1, n + 1)].abandoned)
              && advancedPeerTsnAckPoint == Add32(c1, n)
      ensures !(Add32(advancedPeerTsnAckPoint, 1) in inflightQueue.chunkMap
                && inflightQueue.chunkMap[Add32(advancedPeerTsnAckPoint, 1)].abandoned)
      ensures willSendForwardTsn == (old(willSendForwardTsn) || Gt32(advancedPeerTsnAckPoint, cumulativeTsnAckPoint))
    {
      if Lt32(advancedPeerTsnAckPoint, cumulativeTsnAckPoint) {
        advancedPeerTsnAckPoint := cumulativeTsnAckPoint;
      }
      ghost var c1 := advancedPeerTsnAckPoint;
      n := SkipAbandoned();
      AddStep(c1, n);
      if Gt32(advancedPeerTsnAckPoint, cumulativeTsnAckPoint) {
        willSendForwardTsn := true;
      }
    }

    /** Rule C2: the advanced peer ack point moves over the abandoned chunks that follow it. */
    method SkipAbandoned() returns (ghost n: nat)
      requires Valid() && |inflightQueue.sorted| < TWO_32
      modifies this`advancedPeerTsnAckPoint
      ensures var base, chunks := old(advancedPeerTsnAckPoint), inflightQueue.chunkMap;
              AbandonedRun(chunks, base, n)
              && !(Add32(base, n + 1) in chunks && chunks[Add32(base, n + 1)].abandoned)
              && advancedPeerTsnAckPoint == Add32(base, n)
    {
      ghost var base := advancedPeerTsnAckPoint;
      ghost var keys := inflightQueue.chunkMap.Keys;
      NoDuplicatesCardinality(inflightQueue.sorted);
      assert Elements(inflightQueue.sorted) == keys;
      n := 0;
      var i := Add32(advancedPeerTsnAckPoint, 1);
      while true
        invariant AbandonedRun(inflightQueue.chunkMap, base, n) && n <= |keys|
        invariant i == Add32(base, n + 1) && advancedPeerTsnAckPoint == Add32(base, n)
        decreases |keys| - n
      {
        var c := inflightQueue.Get(i);
        if c.None? || !c.value.abandoned {
          break;
        }
        AbandonedRunExtends(inflightQueue.chunkMap, base, n);
        advancedPeerTsnAckPoint := i;
        AddStep(base, n + 1);
        i := Add32(i, 1);
        n := n + 1;
      }
    }

    /**
     * `postprocess_sack`, given the state before the SACK: T3-rtx runs
     * while data is in flight; once nothing is, a pending shutdown sends
     * SHUTDOWN and a received one sends SHUTDOWN ACK.
     */
    method PostprocessSack(state0: AssociationState)
      requires Valid()
      modifies this`timers, this`willSendShutdown, this`willSendShutdownAck, this`state
      ensures inflightQueue.sorted != [] ==>
                timers == old(timers) + {T3Rtx} && state == old(state)
                && willSendShutdown == old(willSendShutdown) && willSendShutdownAck == old(willSendShutdownAck)
      ensures inflightQueue.sorted == [] ==>
                timers == old(timers)
                && (state0 == ShutdownPending ==>
                      willSendShutdown && state == ShutdownSent && willSendShutdownAck == old(willSendShutdownAck))
                && (state0 == ShutdownReceived ==>
                      willSendShutdownAck && state == ShutdownAckSent && willSendShutdown == old(willSendShutdown))
                && (state0 != ShutdownPending && state0 != ShutdownReceived ==>
                      state == old(state) && willSendShutdown == old(willSendShutdown)
                      && willSendShutdownAck == old(willSendShutdownAck))
    {
      var empty := inflightQueue.IsEmpty();
      if !empty {
        timers := timers + {T3Rtx};
      } else if state0 == ShutdownPending {
        willSendShutdown := true;
        state := ShutdownSent;
      } else if state0 == ShutdownReceived {
        willSendShutdownAck := true;
        state := ShutdownAckSent;
      }
    }

    /** A SACK `handle_sack` acts on: the association is open and the SACK is not older than the ack point. */
    ghost predicate SackAccepted(d: ChunkSelectiveAck)
      reads this
    {
      (state == Established || state == ShutdownPending || state == ShutdownReceived)
      && !Gt32(cumulativeTsnAckPoint, d.cumulativeTsnAck)
    }

    /** What `handle_sack` needs of `process_selective_ack`: its errors, a queue no longer, and no byte lost. */
    method SelectiveAck(d: ChunkSelectiveAck) returns (r: Result<(map<u16, nat>, u32)>)
      requires Valid()
      modifies this`timers, this`minTsn2measureRtt, this`inFastRecovery,
               inflightQueue`sorted, inflightQueue`chunkMap, inflightQueue`nBytes
      ensures Valid()
      ensures r.Err? ==> r.error == ErrInflightQueueTsnPop || r.error == ErrTsnRequestNotExist
      ensures r.Ok? ==> |inflightQueue.sorted| <= old(|inflightQueue.sorted|)
      ensures r.Ok? && old(AckedHoldNothing(inflightQueue.chunkMap)) ==>
                Total(r.value.0) + inflightQueue.nBytes == old(inflightQueue.nBytes) && AckedHoldNothing(inflightQueue.chunkMap)
    {
      ghost var popped, mid;
      r, popped, mid := ProcessSelectiveAck(d);
    }

    /**
     * The first half of `handle_sack` on an accepted SACK: process its
     * acks, move the cumulative TSN ack point and the congestion window
     * when the SACK advances it, and take the peer's rwnd less what is
     * still outstanding. Returns the HTNA and whether the point advanced.
     */
    method SackCumulative(d: ChunkSelectiveAck) returns (r: Result<(u32, bool)>, ghost bytes: map<u16, nat>)
      requires Valid()
      modifies this`timers, this`minTsn2measureRtt, this`inFastRecovery,
               inflightQueue`sorted, inflightQueue`chunkMap, inflightQueue`nBytes,
               this`cumulativeTsnAckPoint, this`cwnd, this`partialBytesAcked, this`rwnd
      ensures Valid()
      ensures r.Err? ==> r.error == ErrInflightQueueTsnPop || r.error == ErrTsnRequestNotExist
      ensures r.Ok? ==>
                var advanced := Lt32(old(cumulativeTsnAckPoint), d.cumulativeTsnAck);
                var acked := Total(bytes) % TWO_32;
                r.value.1 == advanced && |inflightQueue.sorted| <= old(|inflightQueue.sorted|)
                && cumulativeTsnAckPoint == (if advanced then d.cumulativeTsnAck else old(cumulativeTsnAckPoint))
                && rwnd == RwndAfterSack(d.advertisedReceiverWindowCredit, inflightQueue.nBytes)
                && (advanced ==> (T3Rtx in timers <==> inflightQueue.sorted != []))
                && (!advanced ==> cwnd == old(cwnd) && partialBytesAcked == old(partialBytesAcked))
                && (advanced && old(cwnd) <= ssthresh ==>
                      partialBytesAcked == old(partialBytesAcked)
                      && cwnd == (if !inFastRecovery && pendingQueue != [] then SlowStartCwnd(old(cwnd), acked) else old(cwnd)))
                && (advanced && old(cwnd) > ssthresh ==>
                      Window(cwnd, partialBytesAcked)
                        == CongestionAvoidance(Window(old(cwnd), old(partialBytesAcked)), acked, mtu, pendingQueue != []))
      ensures r.Ok? && old(AckedHoldNothing(inflightQueue.chunkMap)) ==>
                Total(bytes) + inflightQueue.nBytes == old(inflightQueue.nBytes) && AckedHoldNothing(inflightQueue.chunkMap)
    {
      var sel := SelectiveAck(d);
      if sel.Err? {
        r, bytes := Err(sel.error), map[];
      } else {
        bytes := sel.value.0;
        var advanced := SackAdvance(d, sel.value.0);
        r := Ok((sel.value.1, advanced));
      }
    }

    /**
     * `handle_sack` once the SACK's acks are processed: the cumulative TSN
     * ack point and the window advance by the bytes acknowledged, and the
     * peer's rwnd is its credit less what is still outstanding.
     */
    method SackAdvance(d: ChunkSelectiveAck, bytes: map<u16, nat>) returns (advanced: bool)
      requires Valid()
      modifies this`timers, this`cumulativeTsnAckPoint, this`cwnd, this`partialBytesAcked, this`rwnd
      ensures Valid()
      ensures var acked := Total(bytes) % TWO_32;
              advanced == Lt32(old(cumulativeTsnAckPoint), d.cumulativeTsnAck)
              && cumulativeTsnAckPoint == (if advanced then d.cumulativeTsnAck else old(cumulativeTsnAckPoint))
              && rwnd == RwndAfterSack(d.advertisedReceiverWindowCredit, inflightQueue.nBytes)
              && (advanced ==> (T3Rtx in timers <==> inflightQueue.sorted != []))
              && (!advanced ==> cwnd == old(cwnd) && partialBytesAcked == old(partialBytesAcked))
              && (advanced && old(cwnd) <= ssthresh ==>
                    partialBytesAcked == old(partialBytesAcked)
                    && cwnd == (if !inFastRecovery && pendingQueue != [] then SlowStartCwnd(old(cwnd), acked) else old(cwnd)))
              && (advanced && old(cwnd) > ssthresh ==>
                    Window(cwnd, partialBytesAcked)
                      == CongestionAvoidance(Window(old(cwnd), old(partialBytesAcked)), acked, mtu, pendingQueue != []))
    {
      var total := TotalBytesAcked(bytes);
      advanced := AdvanceCumulativeTsnAckPoint(d.cumulativeTsnAck, total);
      UpdateRwnd(d.advertisedReceiverWindowCredit);
    }

    /**
     * A SACK whose cumulative TSN ack is serially past the cumulative TSN
     * ack point moves the point there and grows the window by the bytes it
     * acknowledged; any other SACK leaves both.
     */
    method AdvanceCumulativeTsnAckPoint(target: u32, total: nat) returns (advanced: bool)
      requires Valid()
      modifies this`cumulativeTsnAckPoint, this`timers, this`cwnd, this`partialBytesAcked
      ensures Valid()
      ensures advanced == Lt32(old(cumulativeTsnAckPoint), target)
      ensures cumulativeTsnAckPoint == (if advanced then target else old(cumulativeTsnAckPoint))
      ensures !advanced ==> timers == old(timers) && cwnd == old(cwnd) && partialBytesAcked == old(partialBytesAcked)
      ensures advanced ==> (T3Rtx in timers <==> inflightQueue.sorted != [])
      ensures var acked := total % TWO_32;
              advanced && old(cwnd) <= ssthresh ==>
                partialBytesAcked == old(partialBytesAcked)
                && cwnd == (if !inFastRecovery && pendingQueue != [] then SlowStartCwnd(old(cwnd), acked) else old(cwnd))
      ensures var acked := total % TWO_32;
              advanced && old(cwnd) > ssthresh ==>
                Window(cwnd, partialBytesAcked)
                  == CongestionAvoidance(Window(old(cwnd), old(partialBytesAcked)), acked, mtu, pendingQueue != [])
    {
      advanced := false;
      if Lt32(cumulativeTsnAckPoint, target) {
        cumulativeTsnAckPoint := target;
        advanced := true;
        OnCumulativeTsnAckPointAdvanced(total);
      }
    }

    /** The peer's rwnd after a SACK: its advertised credit less the bytes in flight, at least zero. */
    method UpdateRwnd(advertised: u32)
      requires Valid()
      modifies this`rwnd
      ensures Valid() && rwnd == RwndAfterSack(advertised, inflightQueue.nBytes)
    {
      var outstanding: u32 := inflightQueue.GetNumBytes() % TWO_32;
      if outstanding >= advertised {
        rwnd := 0;
      } else {
        rwnd := advertised - outstanding;
      }
    }

    /** `process_fast_retransmission` as `handle_sack` calls it, stated by `FastRetransmitted`. */
    method FastRetransmission(cumTsnAckPoint: u32, htna: u32, advanced: bool) returns (r: Result<()>, ghost fin: Result<Recovery>)
      requires Valid()
      modifies this`inFastRecovery, this`fastRecoverExitPoint, this`ssthresh, this`cwnd, this`partialBytesAcked,
               this`willRetransmitFast, inflightQueue`chunkMap
      ensures Valid()
      ensures r.Err? ==> r == Err(ErrTsnRequestNotExist)
      ensures fin == FastRetransmitted(old(RecoveryState()), cumTsnAckPoint, htna, |old(inflightQueue.sorted)|, advanced, mtu)
      ensures (r.Ok? <==> fin.Ok?) && (r.Ok? ==> RecoveryState() == fin.value)
    {
      r := ProcessFastRetransmission(cumTsnAckPoint, htna, advanced);
      fin := FastRetransmitted(old(RecoveryState()), cumTsnAckPoint, htna, |old(inflightQueue.sorted)|, advanced, mtu);
    }

    /**
     * The second half of `handle_sack`: fast retransmission, then, with
     * FORWARD TSN in use, rules C1-C3 for the advanced peer ack point
     * (`AdvanceAbandonedAckPoint`), then `postprocess_sack`.
     */
    method SackRecovery(d: ChunkSelectiveAck, htna: u32, advanced: bool, state0: AssociationState, ghost cum0: u32)
      returns (r: Result<()>, ghost fin: Result<Recovery>)
      requires Valid() && |inflightQueue.sorted| < TWO_32
      modifies this`inFastRecovery, this`fastRecoverExitPoint, this`ssthresh, this`cwnd, this`partialBytesAcked,
               this`willRetransmitFast, inflightQueue`chunkMap, this`advancedPeerTsnAckPoint, this`willSendForwardTsn,
               this`timers, this`willSendShutdown, this`willSendShutdownAck, this`state
      ensures Valid() && inflightQueue.sorted == old(inflightQueue.sorted) && inflightQueue.nBytes == old(inflightQueue.nBytes)
      ensures r.Err? ==> r == Err(ErrTsnRequestNotExist)
      ensures fin == FastRetransmitted(old(RecoveryState()), d.cumulativeTsnAck, htna, |old(inflightQueue.sorted)|, advanced, mtu)
      ensures (r.Ok? <==> fin.Ok?) && (r.Ok? ==> RecoveryState() == fin.value)
      ensures r.Ok? && useForwardTsn ==>
                !(Add32(advancedPeerTsnAckPoint, 1) in inflightQueue.chunkMap
                  && inflightQueue.chunkMap[Add32(advancedPeerTsnAckPoint, 1)].abandoned)
                && willSendForwardTsn == (old(willSendForwardTsn) || Gt32(advancedPeerTsnAckPoint, cumulativeTsnAckPoint))
      ensures r.Ok? && !useForwardTsn ==>
                advancedPeerTsnAckPoint == old(advancedPeerTsnAckPoint) && willSendForwardTsn == old(willSendForwardTsn)
      ensures r.Ok? && inflightQueue.sorted != [] ==> T3Rtx in timers && state == old(state)
      ensures r.Ok? && inflightQueue.sorted == [] ==>
                (state0 == ShutdownPending ==> willSendShutdown && state == ShutdownSent)
                && (state0 == ShutdownReceived ==> willSendShutdownAck && state == ShutdownAckSent)
                && (state0 != ShutdownPending && state0 != ShutdownReceived ==> state == old(state))
      ensures r.Ok? && old(AckPointAfter(d, cum0)) && old(state) == state0 ==> SackProcessed(d, cum0, state0)
    {
      r, fin := FastRetransmission(d.cumulativeTsnAck, htna, advanced);
      if r.Ok? {
        label recovered:
        AbandonAndPostprocess(state0, d, cum0);
        assert RecoveryState() == old@recovered(RecoveryState());
      }
    }

    /** The end of `handle_sack`: rules C1-C3 when FORWARD TSN is in use, then `postprocess_sack`. */
    method AbandonAndPostprocess(state0: AssociationState, ghost d: ChunkSelectiveAck, ghost cum0: u32)
      requires Valid() && |inflightQueue.sorted| < TWO_32
      modifies this`advancedPeerTsnAckPoint, this`willSendForwardTsn,
               this`timers, this`willSendShutdown, this`willSendShutdownAck, this`state
      ensures Valid()
      ensures useForwardTsn ==>
                !(Add32(advancedPeerTsnAckPoint, 1) in inflightQueue.chunkMap
                  && inflightQueue.chunkMap[Add32(advancedPeerTsnAckPoint, 1)].abandoned)
                && willSendForwardTsn == (old(willSendForwardTsn) || Gt32(advancedPeerTsnAckPoint, cumulativeTsnAckPoint))
      ensures !useForwardTsn ==>
                advancedPeerTsnAckPoint == old(advancedPeerTsnAckPoint) && willSendForwardTsn == old(willSendForwardTsn)
      ensures inflightQueue.sorted != [] ==> T3Rtx in timers && state == old(state)
      ensures inflightQueue.sorted == [] ==>
                (state0 == ShutdownPending ==> willSendShutdown && state == ShutdownSent)
                && (state0 == ShutdownReceived ==> willSendShutdownAck && state == ShutdownAckSent)
                && (state0 != ShutdownPending && state0 != ShutdownReceived ==> state == old(state))
      ensures old(AckPointAfter(d, cum0)) && old(state) == state0 ==> SackProcessed(d, cum0, state0)
    {
      if useForwardTsn {
        ghost var n := AdvanceAbandonedAckPoint();
      }
      PostprocessSack(state0);
    }

    /** The cumulative TSN ack point moved to the SACK's when that is later than `cum0`, and the peer's rwnd less the outstanding bytes. */
    ghost predicate AckPointAfter(d: ChunkSelectiveAck, cum0: u32)
      reads this`cumulativeTsnAckPoint, this`rwnd, inflightQueue`nBytes
    {
      cumulativeTsnAckPoint == (if Lt32(cum0, d.cumulativeTsnAck) then d.cumulativeTsnAck else cum0)
      && rwnd == RwndAfterSack(d.advertisedReceiverWindowCredit, inflightQueue.nBytes)
    }

    /**
     * The state an accepted SACK leaves, given the cumulative TSN ack point
     * and the association state before it: the ack point moved to the
     * SACK's when that is later, the peer's rwnd less the outstanding
     * bytes, the advanced peer ack point past the abandoned run with a
     * FORWARD TSN due when it is ahead, T3-rtx running while data is in
     * flight and a pending shutdown going on once none is.
     */
    ghost predicate SackProcessed(d: ChunkSelectiveAck, cum0: u32, state0: AssociationState)
      reads this, inflightQueue
    {
      AckPointAfter(d, cum0)
      && (useForwardTsn ==>
            !(Add32(advancedPeerTsnAckPoint, 1) in inflightQueue.chunkMap
              && inflightQueue.chunkMap[Add32(advancedPeerTsnAckPoint, 1)].abandoned)
            && (Gt32(advancedPeerTsnAckPoint, cumulativeTsnAckPoint) ==> willSendForwardTsn))
      && (inflightQueue.sorted != [] ==> T3Rtx in timers && state == state0)
      && (inflightQueue.sorted == [] && state0 == ShutdownPending ==> willSendShutdown && state == ShutdownSent)
      && (inflightQueue.sorted == [] && state0 == ShutdownReceived ==> willSendShutdownAck && state == ShutdownAckSent)
    }

    /** `handle_sack` past its two guards: `SackCumulative`, then `SackRecovery`. */
    method AcceptSack(d: ChunkSelectiveAck) returns (r: Result<seq<Packet>>, ghost bytes: map<u16, nat>)
      requires Valid() && |inflightQueue.sorted| < TWO_32
      modifies this`timers, this`minTsn2measureRtt, this`inFastRecovery,
               inflightQueue`sorted, inflightQueue`chunkMap, inflightQueue`nBytes,
               this`cumulativeTsnAckPoint, this`cwnd, this`partialBytesAcked, this`rwnd,
               this`fastRecoverExitPoint, this`ssthresh, this`willRetransmitFast,
               this`advancedPeerTsnAckPoint, this`willSendForwardTsn,
               this`willSendShutdown, this`willSendShutdownAck, this`state
      ensures Valid()
      ensures r.Err? ==> r.error == ErrInflightQueueTsnPop || r.error == ErrTsnRequestNotExist
      ensures r.Ok? ==> r.value == [] && SackProcessed(d, old(cumulativeTsnAckPoint), old(state))
      ensures r.Ok? && old(AckedHoldNothing(inflightQueue.chunkMap)) ==>
                Total(bytes) + inflightQueue.nBytes == old(inflightQueue.nBytes)
    {
      var state0 := state;
      var acks;
      acks, bytes := SackCumulative(d);
      if acks.Err? {
        return Err(acks.error), bytes;
      }
      var recovered;
      ghost var fin;
      recovered, fin := SackRecovery(d, acks.value.0, acks.value.1, state0, old(cumulativeTsnAckPoint));
      if recovered.Err? {
        return Err(recovered.error), bytes;
      }
      r := Ok([]);
    }

    /**
     * `handle_sack`: a SACK arriving outside ESTABLISHED, SHUTDOWN-PENDING
     * and SHUTDOWN-RECEIVED, or older than the cumulative TSN ack point, is
     * dropped; otherwise it is processed (`AcceptSack`). Any error stops
     * the handler.
     */
    method HandleSack(d: ChunkSelectiveAck) returns (r: Result<seq<Packet>>, ghost bytes: map<u16, nat>)
      requires Valid() && |inflightQueue.sorted| < TWO_32
      modifies this`timers, this`minTsn2measureRtt, this`inFastRecovery,
               inflightQueue`sorted, inflightQueue`chunkMap, inflightQueue`nBytes,
               this`cumulativeTsnAckPoint, this`cwnd, this`partialBytesAcked, this`rwnd,
               this`fastRecoverExitPoint, this`ssthresh, this`willRetransmitFast,
               this`advancedPeerTsnAckPoint, this`willSendForwardTsn,
               this`willSendShutdown, this`willSendShutdownAck, this`state
      ensures Valid()
      ensures !old(SackAccepted(d)) ==> r == Ok([]) && unchanged(this) && unchanged(inflightQueue)
      ensures r.Err? ==> r.error == ErrInflightQueueTsnPop || r.error == ErrTsnRequestNotExist
      ensures r.Ok? ==> r.value == []
      ensures old(SackAccepted(d)) && r.Ok? ==> SackProcessed(d, old(cumulativeTsnAckPoint), old(state))
      ensures old(SackAccepted(d)) && r.Ok? && old(AckedHoldNothing(inflightQueue.chunkMap)) ==>
                Total(bytes) + inflightQueue.nBytes == old(inflightQueue.nBytes)
    {
      bytes := map[];
      if state != Established && state != ShutdownPending && state != ShutdownReceived {
        return Ok([]), bytes;
      }
      if Gt32(cumulativeTsnAckPoint, d.cumulativeTsnAck) {
        return Ok([]), bytes;
      }
      r, bytes := AcceptSack(d);
    }

    /** After `n` steps of the retransmission walk over `c0`, the queue, the bytes, the gathered chunks and whether it is over are as `ResendFold` says. */
    ghost predicate Resends(n: nat, c0: map<u32, ChunkPayloadData>, awnd: nat, bytes: nat, chunks: seq<ChunkPayloadData>, done: bool)
      reads this`cumulativeTsnAckPoint, this`rwnd, inflightQueue
    {
      var r := ResendFold(n, ResendStart(c0), cumulativeTsnAckPoint, awnd, rwnd);
      inflightQueue.chunkMap == r.chunks && bytes == r.bytes && chunks == r.sent && done == r.stopped
    }

    /**
     * `get_data_packets_to_retransmit`: walks the in-flight TSNs after the
     * cumulative TSN ack point as `ResendFold` says, `n` steps until the
     * walk is over, with the window min(cwnd, rwnd), and bundles the
     * gathered chunks by the source's own test (`AsWrittenRun`, which can
     * exceed the MTU; see `Bundling.AsWrittenExceedsMtu`). The chunks'
     * partial reliability check is not modelled.
     */
    method GetDataPacketsToRetransmit() returns (packets: seq<Packet>, ghost n: nat)
      requires Valid() && |inflightQueue.sorted| < TWO_32
      modifies inflightQueue`chunkMap
      ensures Valid()
      ensures var c0, awnd := old(inflightQueue.chunkMap), Min(cwnd, rwnd);
              var r := ResendFold(n, ResendStart(c0), cumulativeTsnAckPoint, awnd, rwnd);
              r.stopped
              && inflightQueue.chunkMap == r.chunks
              && packets == ToPackets(CreatePacket([]).commonHeader, Bundling.Finish(AsWrittenRun(r.sent, mtu)))
    {
      var awnd := Min(cwnd, rwnd);
      var chunks;
      chunks, n := ResendWalk(awnd);
      packets := BundleDataChunksIntoPacketsAsWritten(chunks, mtu, CreatePacket([]).commonHeader);
    }

    /** The loop of `get_data_packets_to_retransmit`: the chunks to resend within the window `awnd`. */
    method ResendWalk(awnd: nat) returns (chunks: seq<ChunkPayloadData>, ghost n: nat)
      requires Valid() && |inflightQueue.sorted| < TWO_32
      modifies inflightQueue`chunkMap
      ensures Valid()
      ensures var r := ResendFold(n, ResendStart(old(inflightQueue.chunkMap)), cumulativeTsnAckPoint, awnd, rwnd);
              r.stopped && inflightQueue.chunkMap == r.chunks && chunks == r.sent
    {
      ghost var c0 := inflightQueue.chunkMap;
      NoDuplicatesCardinality(inflightQueue.sorted);
      assert Elements(inflightQueue.sorted) == c0.Keys;
      chunks := [];
      var bytesToSend: nat := 0;
      var done := false;
      var i: u32 := 0;
      n := 0;
      while !done
        invariant Valid() && i as nat == n && n <= |c0.Keys| && inflightQueue.chunkMap.Keys == c0.Keys
        invariant Resends(n, c0, awnd, bytesToSend, chunks, done)
        decreases |c0.Keys| - n
      {
        var found;
        found, done, bytesToSend, chunks := RetransmitStep(i, awnd, bytesToSend, chunks, c0, n);
        n := n + 1;
        if !found {
          break;
        }
        i := i + 1;
      }
    }

    /** The `n`-th step of the walk, at the TSN `n + 1` past the ack point: one `ResendStep` on top of the `n` before it. */
    method RetransmitStep(i: u32, awnd: nat, bytesToSend: nat, chunks: seq<ChunkPayloadData>, ghost c0: map<u32, ChunkPayloadData>, ghost n: nat)
      returns (found: bool, done: bool, bytes': nat, chunks': seq<ChunkPayloadData>)
      requires Valid() && i as nat == n && inflightQueue.chunkMap.Keys == c0.Keys
      requires Resends(n, c0, awnd, bytesToSend, chunks, false)
      modifies inflightQueue`chunkMap
      ensures Valid() && inflightQueue.chunkMap.Keys == c0.Keys
      ensures Resends(n + 1, c0, awnd, bytes', chunks', !found || done)
      ensures found ==> n + 1 <= |c0.Keys|
    {
      ResendFoldPresent(n, ResendStart(c0), cumulativeTsnAckPoint, awnd, rwnd);
      AddStep(cumulativeTsnAckPoint, n);
      var tsn := Add32(Add32(cumulativeTsnAckPoint, i), 1);
      found, done, bytes', chunks' := RetransmitChunk(tsn, i, awnd, bytesToSend, chunks);
      if found {
        RunExtends(cumulativeTsnAckPoint, n, c0.Keys);
        RunFitsInKeys(cumulativeTsnAckPoint, n + 1, c0.Keys);
      }
    }

    /**
     * One step of the walk of `get_data_packets_to_retransmit`, the `i`-th,
     * at TSN `tsn`: `ResendStep`. `found` is false when the walk breaks
     * off; `done` when the chunk went out as a zero window probe.
     */
    method RetransmitChunk(tsn: u32, i: u32, awnd: nat, bytesToSend: nat, chunks: seq<ChunkPayloadData>)
      returns (found: bool, done: bool, bytes': nat, chunks': seq<ChunkPayloadData>)
      requires Valid()
      modifies inflightQueue`chunkMap
      ensures Valid() && inflightQueue.chunkMap.Keys == old(inflightQueue.chunkMap).Keys
      ensures found ==> tsn in inflightQueue.chunkMap
      ensures var r := ResendStep(Resend(old(inflightQueue.chunkMap), bytesToSend, chunks, false), i as nat, tsn, awnd, rwnd);
              inflightQueue.chunkMap == r.chunks && bytes' == r.bytes && chunks' == r.sent && (!found || done) == r.stopped
    {
      ghost var s0 := Resend(inflightQueue.chunkMap, bytesToSend, chunks, false);
      bytes', chunks' := bytesToSend, chunks;
      done := false;
      var c := inflightQueue.Get(tsn);
      found := c.Some?;
      if found && c.value.retransmit {
        if i == 0 && rwnd < |c.value.userData| {
          done := true;
        } else if bytesToSend + |c.value.userData| > awnd {
          found := false;
        }
        if found {
          var resent := c.value.(retransmit := false, nsent := c.value.nsent + 1);
          assert resent == Resent(s0.chunks[tsn]);
          bytes' := bytesToSend + |c.value.userData|;
          inflightQueue.SetChunk(tsn, resent);
          chunks' := chunks + [resent];
        }
      }
    }

    /** The TSNs the pending chunks would be sent under are not in flight, nor is the count past the TSN space. */
    ghost predicate FreshTsns()
      reads this`pendingQueue, this`myNextTsn, inflightQueue
    {
      |pendingQueue| < TWO_32
      && forall k :: 0 <= k < |pendingQueue| ==> Add32(myNextTsn, k) !in inflightQueue.chunkMap
    }

    /**
     * `move_pending_data_chunk_to_inflight_queue`: the head of the pending
     * queue is sent for the first time under the next TSN and stored in
     * flight. The caller peeked the head, so the pending queue is not
     * empty.
     */
    method MovePendingDataChunkToInflightQueue() returns (c: ChunkPayloadData)
      requires Valid() && FreshTsns() && pendingQueue != []
      modifies this`pendingQueue, this`myNextTsn, inflightQueue`sorted, inflightQueue`chunkMap, inflightQueue`nBytes
      ensures Valid() && FreshTsns()
      ensures c == Sending(old(pendingQueue[0]), old(myNextTsn))
      ensures pendingQueue == old(pendingQueue[1..]) && myNextTsn == Add32(old(myNextTsn), 1)
      ensures inflightQueue.chunkMap == old(inflightQueue.chunkMap)[c.tsn := c]
      ensures inflightQueue.nBytes == old(inflightQueue.nBytes) + |c.userData|
      ensures inflightQueue.sorted != []
    {
      SentTsnsStayFresh(myNextTsn, |pendingQueue|, inflightQueue.chunkMap, Sending(pendingQueue[0], myNextTsn));
      c := pendingQueue[0];
      pendingQueue := pendingQueue[1..];
      var tsn := GenerateNextTsn();
      c := c.(tsn := tsn, nsent := 1);
      ghost var at := inflightQueue.PushNoCheck(c);
      assert c.tsn in inflightQueue.chunkMap;
      assert c.tsn in Elements(inflightQueue.sorted);
    }

    /** The state of the loop of `pop_pending_data_chunks_to_send`, as `DrainedSoFar` says. */
    ghost predicate Draining(p0: seq<ChunkPayloadData>, b0: nat, r0: u32, t0: u32, m0: map<u32, ChunkPayloadData>, empty0: bool,
                             chunks: seq<ChunkPayloadData>, resets: seq<u16>)
      reads this`cwnd, this`pendingQueue, this`rwnd, this`myNextTsn, inflightQueue
    {
      DrainedSoFar(p0, b0, cwnd, r0, t0, m0, empty0, chunks, resets,
              pendingQueue, inflightQueue.nBytes, rwnd, myNextTsn, inflightQueue.chunkMap, inflightQueue.sorted == [])
    }

    /**
     * `pop_pending_data_chunks_to_send`: drains the pending queue as
     * `Drain` says, from the in-flight bytes, cwnd, rwnd and next TSN; when
     * that sends nothing and nothing is in flight, the head of what stays
     * pending goes out anyway as a zero window probe (rule A of section
     * 6.1 of RFC 4960).
     */
    method PopPendingDataChunksToSend() returns (chunks: seq<ChunkPayloadData>, sisToReset: seq<u16>)
      requires Valid() && FreshTsns()
      modifies this`pendingQueue, this`rwnd, this`myNextTsn, inflightQueue`sorted, inflightQueue`chunkMap, inflightQueue`nBytes
      ensures Valid() && FreshTsns()
      ensures var d := Drain(old(pendingQueue), old(inflightQueue.nBytes), cwnd, old(rwnd), old(myNextTsn));
              var probe := d.sent == [] && old(inflightQueue.sorted) == [] && d.rest != [];
              sisToReset == d.resets && rwnd == d.rwnd
              && chunks == (if probe then [Sending(d.rest[0], d.nextTsn)] else d.sent)
              && pendingQueue == (if probe then d.rest[1..] else d.rest)
      ensures myNextTsn == Add32(old(myNextTsn), |chunks|)
      ensures inflightQueue.chunkMap == Added(old(inflightQueue.chunkMap), chunks)
      ensures inflightQueue.nBytes == old(inflightQueue.nBytes) + DataLength(chunks)
    {
      if pendingQueue != [] {
        chunks, sisToReset := DrainPendingQueue();
        chunks := ProbeIfIdle(chunks);
      } else {
        chunks, sisToReset := [], [];
        assert Add32(myNextTsn, 0) == myNextTsn;
      }
    }

    /**
     * The zero window probe of `pop_pending_data_chunks_to_send`: when the
     * loop sent nothing and nothing is in flight, the head of the pending
     * queue goes into flight.
     */
    method ProbeIfIdle(chunks: seq<ChunkPayloadData>) returns (chunks': seq<ChunkPayloadData>)
      requires Valid() && FreshTsns()
      modifies this`pendingQueue, this`myNextTsn, inflightQueue`sorted, inflightQueue`chunkMap, inflightQueue`nBytes
      ensures Valid() && FreshTsns()
      ensures var probe := chunks == [] && old(inflightQueue.sorted) == [] && old(pendingQueue) != [];
              if probe then
                var c := Sending(old(pendingQueue)[0], old(myNextTsn));
                chunks' == [c] && pendingQueue == old(pendingQueue)[1..] && myNextTsn == Add32(old(myNextTsn), 1)
                && inflightQueue.chunkMap == old(inflightQueue.chunkMap)[c.tsn := c]
                && inflightQueue.nBytes == old(inflightQueue.nBytes) + |c.userData|
              else
                chunks' == chunks && pendingQueue == old(pendingQueue) && myNextTsn == old(myNextTsn)
                && inflightQueue.chunkMap == old(inflightQueue.chunkMap) && inflightQueue.nBytes == old(inflightQueue.nBytes)
    {
      chunks' := chunks;
      var empty := inflightQueue.IsEmpty();
      if chunks == [] && empty && pendingQueue != [] {
        var chunk := MovePendingDataChunkToInflightQueue();
        chunks' := [chunk];
      }
    }

    /** The loop of `pop_pending_data_chunks_to_send`: `Drain` of the pending queue, taking each sent chunk into flight. */
    method DrainPendingQueue() returns (chunks: seq<ChunkPayloadData>, sisToReset: seq<u16>)
      requires Valid() && FreshTsns()
      modifies this`pendingQueue, this`rwnd, this`myNextTsn, inflightQueue`sorted, inflightQueue`chunkMap, inflightQueue`nBytes
      ensures Valid() && FreshTsns()
      ensures Drain(old(pendingQueue), old(inflightQueue.nBytes), cwnd, old(rwnd), old(myNextTsn))
                == DrainResult(chunks, sisToReset, pendingQueue, rwnd, myNextTsn)
      ensures myNextTsn == Add32(old(myNextTsn), |chunks|)
      ensures inflightQueue.chunkMap == Added(old(inflightQueue.chunkMap), chunks)
      ensures inflightQueue.nBytes == old(inflightQueue.nBytes) + DataLength(chunks)
      ensures (inflightQueue.sorted == []) == (old(inflightQueue.sorted) == [] && chunks == [])
    {
      ghost var p0, b0, r0, t0, m0 := pendingQueue, inflightQueue.nBytes, rwnd, myNextTsn, inflightQueue.chunkMap;
      ghost var empty0 := inflightQueue.sorted == [];
      chunks := [];
      sisToReset := [];
      assert Add32(t0, 0) == t0;
      while pendingQueue != []
        invariant Valid() && FreshTsns()
        invariant Draining(p0, b0, r0, t0, m0, empty0, chunks, sisToReset)
        decreases |pendingQueue|
      {
        var stop;
        stop, chunks, sisToReset := DrainOne(p0, b0, r0, t0, m0, empty0, chunks, sisToReset);
        if stop {
          break;
        }
      }
      assert chunks + [] == chunks && sisToReset + [] == sisToReset;
    }

    /**
     * One turn of that loop: a head without data is a stream reset; a head
     * over the cwnd or the rwnd stops the loop; any other goes into flight.
     */
    method DrainOne(ghost p0: seq<ChunkPayloadData>, ghost b0: nat, ghost r0: u32, ghost t0: u32, ghost m0: map<u32, ChunkPayloadData>,
                    ghost empty0: bool, chunks: seq<ChunkPayloadData>, sisToReset: seq<u16>)
      returns (stop: bool, chunks': seq<ChunkPayloadData>, sisToReset': seq<u16>)
      requires Valid() && FreshTsns() && pendingQueue != []
      requires Draining(p0, b0, r0, t0, m0, empty0, chunks, sisToReset)
      modifies this`pendingQueue, this`rwnd, this`myNextTsn, inflightQueue`sorted, inflightQueue`chunkMap, inflightQueue`nBytes
      ensures Valid() && FreshTsns()
      ensures Draining(p0, b0, r0, t0, m0, empty0, chunks', sisToReset')
      ensures stop ==> Drain(pendingQueue, inflightQueue.nBytes, cwnd, rwnd, myNextTsn)
                         == DrainResult([], [], pendingQueue, rwnd, myNextTsn)
      ensures !stop ==> |pendingQueue| < old(|pendingQueue|)
    {
      var c := pendingQueue[0];
      stop, chunks', sisToReset' := false, chunks, sisToReset;
      if |c.userData| == 0 {
        sisToReset' := DrainReset(p0, b0, r0, t0, m0, empty0, chunks, sisToReset);
      } else if inflightQueue.GetNumBytes() + |c.userData| > cwnd {
        stop := true;
      } else if |c.userData| > rwnd {
        stop := true;
      } else {
        chunks' := DrainSend(p0, b0, r0, t0, m0, empty0, chunks, sisToReset);
      }
    }

    /** A head without data leaves the pending queue as a stream to reset. */
    method DrainReset(ghost p0: seq<ChunkPayloadData>, ghost b0: nat, ghost r0: u32, ghost t0: u32, ghost m0: map<u32, ChunkPayloadData>,
                      ghost empty0: bool, chunks: seq<ChunkPayloadData>, sisToReset: seq<u16>)
      returns (sisToReset': seq<u16>)
      requires Valid() && FreshTsns() && pendingQueue != [] && |pendingQueue[0].userData| == 0
      requires Draining(p0, b0, r0, t0, m0, empty0, chunks, sisToReset)
      modifies this`pendingQueue
      ensures Valid() && FreshTsns()
      ensures Draining(p0, b0, r0, t0, m0, empty0, chunks, sisToReset')
      ensures |pendingQueue| < old(|pendingQueue|)
    {
      DrainResetStep(pendingQueue, inflightQueue.nBytes, cwnd, rwnd, myNextTsn, chunks, sisToReset);
      sisToReset' := sisToReset + [pendingQueue[0].streamIdentifier];
      pendingQueue := pendingQueue[1..];
    }

    /** A head that fits the cwnd and the rwnd goes into flight, taking its bytes from the rwnd. */
    method DrainSend(ghost p0: seq<ChunkPayloadData>, ghost b0: nat, ghost r0: u32, ghost t0: u32, ghost m0: map<u32, ChunkPayloadData>,
                     ghost empty0: bool, chunks: seq<ChunkPayloadData>, sisToReset: seq<u16>)
      returns (chunks': seq<ChunkPayloadData>)
      requires Valid() && FreshTsns() && pendingQueue != []
      requires 0 < |pendingQueue[0].userData| <= rwnd as int && inflightQueue.nBytes + |pendingQueue[0].userData| <= cwnd as int
      requires Draining(p0, b0, r0, t0, m0, empty0, chunks, sisToReset)
      modifies this`pendingQueue, this`rwnd, this`myNextTsn, inflightQueue`sorted, inflightQueue`chunkMap, inflightQueue`nBytes
      ensures Valid() && FreshTsns()
      ensures Draining(p0, b0, r0, t0, m0, empty0, chunks', sisToReset)
      ensures |pendingQueue| < old(|pendingQueue|)
    {
      DrainedSend(p0, b0, cwnd, r0, t0, m0, empty0, chunks, sisToReset,
                  pendingQueue, inflightQueue.nBytes, rwnd, myNextTsn, inflightQueue.chunkMap, inflightQueue.sorted == []);
      rwnd := rwnd - |pendingQueue[0].userData| as u32;
      var chunk := MovePendingDataChunkToInflightQueue();
      chunks' := chunks + [chunk];
    }

    /**
     * `create_forward_tsn` (rule C4 of section 3.5 of RFC 3758): the new
     * cumulative TSN is the advanced peer ack point, and the streams are
     * the report `SsnReport` builds from the `n` chunks in flight after
     * the cumulative TSN ack point, up to the advanced peer ack point or
     * the first TSN not in flight.
     */
    method CreateForwardTsn() returns (fwd: ChunkForwardTsn, ghost n: nat)
      requires Valid()
      ensures fwd.newCumulativeTsn == advancedPeerTsnAckPoint
      ensures n <= AckedRunLength(cumulativeTsnAckPoint, advancedPeerTsnAckPoint)
      ensures forall k :: 1 <= k <= n ==> Add32(cumulativeTsnAckPoint, k) in inflightQueue.chunkMap
      ensures n < AckedRunLength(cumulativeTsnAckPoint, advancedPeerTsnAckPoint) ==>
                Add32(cumulativeTsnAckPoint, n + 1) !in inflightQueue.chunkMap
      ensures ListsEntries(fwd.streams, SsnReport(RunChunks(inflightQueue.chunkMap, cumulativeTsnAckPoint, n)))
    {
      var streamMap;
      streamMap, n := CollectStreamSsns();
      var streams := ListStreams(streamMap);
      fwd := ChunkForwardTsn(advancedPeerTsnAckPoint, streams);
    }

    /**
     * The walk of `create_forward_tsn`: from the TSN after the cumulative
     * TSN ack point up to the advanced peer ack point, each chunk in flight
     * reports its stream's SSN, until the first TSN not in flight.
     */
    method CollectStreamSsns() returns (streamMap: map<u16, u16>, ghost n: nat)
      requires Valid()
      ensures n <= AckedRunLength(cumulativeTsnAckPoint, advancedPeerTsnAckPoint)
      ensures forall k :: 1 <= k <= n ==> Add32(cumulativeTsnAckPoint, k) in inflightQueue.chunkMap
      ensures n < AckedRunLength(cumulativeTsnAckPoint, advancedPeerTsnAckPoint) ==>
                Add32(cumulativeTsnAckPoint, n + 1) !in inflightQueue.chunkMap
      ensures streamMap == SsnReport(RunChunks(inflightQueue.chunkMap, cumulativeTsnAckPoint, n))
    {
      ghost var cum, len := cumulativeTsnAckPoint, AckedRunLength(cumulativeTsnAckPoint, advancedPeerTsnAckPoint);
      streamMap := map[];
      var i := Add32(cumulativeTsnAckPoint, 1);
      n := 0;
      while Lte32(i, advancedPeerTsnAckPoint)
        invariant n <= len && i == Add32(cum, n + 1)
        invariant forall k :: 1 <= k <= n ==> Add32(cum, k) in inflightQueue.chunkMap
        invariant streamMap == SsnReport(RunChunks(inflightQueue.chunkMap, cum, n))
        decreases len - n
      {
        AckedRunGuard(cum, advancedPeerTsnAckPoint, n);
        var c := inflightQueue.Get(i);
        if c.None? {
          break;
        }
        SsnReportStep(inflightQueue.chunkMap, cum, n);
        streamMap := ReportStream(streamMap, c.value);
        AckedRunNext(cum, advancedPeerTsnAckPoint, n);
        i := Add32(i, 1);
        n := n + 1;
      }
      AckedRunGuard(cum, advancedPeerTsnAckPoint, n);
    }

    /** One chunk of the walk: its stream's entry takes its SSN unless the entry already holds a serially later one. */
    static method ReportStream(streamMap: map<u16, u16>, c: ChunkPayloadData) returns (m: map<u16, u16>)
      ensures m == ReportSsn(streamMap, c)
    {
      m := streamMap;
      var si, ssn := c.streamIdentifier, c.streamSequenceNumber;
      if si in m {
        if Lt16(m[si], ssn) {
          m := m[si := ssn];
        }
      } else {
        m := m[si := ssn];
      }
    }

    /**
     * `create_selective_ack_chunk`: the SACK this end sends, taking the
     * duplicate log. The gap ack blocks are `get_gap_ack_blocks` as written,
     * whose offsets are wrong across the TSN wrap (`GapAcks.GapOffsetAcrossWrap`).
     */
    method CreateSelectiveAckChunk() returns (sack: ChunkSelectiveAck)
      requires Valid()
      modifies payloadQueue`dupTsn
      ensures Valid()
      ensures sack.cumulativeTsnAck == peerLastTsn
      ensures sack.advertisedReceiverWindowCredit == SaturatingSub(maxReceiveBufferSize, Total(streams) % 0x1_0000_0000)
      ensures sack.gapAckBlocks == GapBlocks(AsWrittenOffsets(payloadQueue.sorted, peerLastTsn))
      ensures sack.duplicateTsn == old(payloadQueue.dupTsn) && payloadQueue.dupTsn == []
    {
      var credit := GetMyReceiverWindowCredit();
      var blocks := payloadQueue.GetGapAckBlocks(peerLastTsn);
      var dups := payloadQueue.PopDuplicates();
      sack := ChunkSelectiveAck(peerLastTsn, credit, blocks, dups);
    }

    /** `send_payload_data`: outside ESTABLISHED an error; otherwise the chunks join the pending queue in order. */
    method SendPayloadData(chunks: seq<ChunkPayloadData>) returns (r: Result<()>)
      modifies this`pendingQueue
      ensures old(state) != Established ==> r == Err(ErrPayloadDataStateNotExist) && pendingQueue == old(pendingQueue)
      ensures old(state) == Established ==> r == Ok(()) && pendingQueue == old(pendingQueue) + chunks
    {
      if state != Established {
        return Err(ErrPayloadDataStateNotExist);
      }
      var k := 0;
      while k < |chunks|
        invariant 0 <= k <= |chunks| && pendingQueue == old(pendingQueue) + chunks[..k]
      {
        assert chunks[..k + 1] == chunks[..k] + [chunks[k]];
        pendingQueue := pendingQueue + [chunks[k]];
        k := k + 1;
      }
      assert chunks[..k] == chunks;
      return Ok(());
    }

    /** `on_ack_timeout`: the delayed SACK is now due immediately. */
    method OnAckTimeout()
      modifies this`ackState
      ensures ackState == Immediate
    {
      ackState := Immediate;
    }

    /**
     * The T3-rtx branch of `on_retransmission_timeout` (rule E1 of section
     * 6.3.3 and section 7.2.3 of RFC 4960, rule A5 of section 3.5 of
     * RFC 3758): ssthresh is cut as for a loss and cwnd drops to one MTU;
     * with FORWARD TSN the advanced peer ack point moves over the run of
     * `n` abandoned chunks after it (C2 from where it stands) and a FORWARD
     * TSN is due once it is past the cumulative TSN ack point (C3); then
     * every outstanding chunk is marked for retransmission.
     */
    method OnT3RtxTimeout() returns (ghost n: nat)
      requires Valid() && |inflightQueue.sorted| < TWO_32
      modifies this`ssthresh, this`cwnd, this`advancedPeerTsnAckPoint, this`willSendForwardTsn, inflightQueue`chunkMap
      ensures Valid()
      ensures ssthresh == LossSsthresh(old(cwnd), mtu) && cwnd == mtu
      ensures !useForwardTsn ==>
                n == 0 && advancedPeerTsnAckPoint == old(advancedPeerTsnAckPoint) && willSendForwardTsn == old(willSendForwardTsn)
      ensures useForwardTsn ==>
                var base, chunks := old(advancedPeerTsnAckPoint), old(inflightQueue.chunkMap);
                AbandonedRun(chunks, base, n)
                && !(Add32(base, n + 1) in chunks && chunks[Add32(base, n + 1)].abandoned)
                && advancedPeerTsnAckPoint == Add32(base, n)
                && willSendForwardTsn == (old(willSendForwardTsn) || Gt32(advancedPeerTsnAckPoint, cumulativeTsnAckPoint))
      ensures inflightQueue.chunkMap.Keys == old(inflightQueue.chunkMap).Keys
      ensures forall k :: k in inflightQueue.chunkMap ==>
                inflightQueue.chunkMap[k] == MarkedForRetransmission(old(inflightQueue.chunkMap)[k])
    {
      ssthresh := Max(cwnd / 2, Quad32(mtu));
      cwnd := mtu;
      n := AbandonOnTimeout();
      inflightQueue.MarkAllToRetransmit();
    }

    /**
     * The partial reliability step of the T3-rtx timeout (rule C3 of
     * section 3.5 of RFC 3758): the advanced peer ack point moves over the
     * abandoned chunks, and a FORWARD TSN is due when it passed the
     * cumulative TSN ack point.
     */
    method AbandonOnTimeout() returns (ghost n: nat)
      requires Valid() && |inflightQueue.sorted| < TWO_32
      modifies this`advancedPeerTsnAckPoint, this`willSendForwardTsn
      ensures Valid()
      ensures !useForwardTsn ==>
                n == 0 && advancedPeerTsnAckPoint == old(advancedPeerTsnAckPoint) && willSendForwardTsn == old(willSendForwardTsn)
      ensures useForwardTsn ==>
                var base, chunks := old(advancedPeerTsnAckPoint), inflightQueue.chunkMap;
                AbandonedRun(chunks, base, n)
                && !(Add32(base, n + 1) in chunks && chunks[Add32(base, n + 1)].abandoned)
                && advancedPeerTsnAckPoint == Add32(base, n)
                && willSendForwardTsn == (old(willSendForwardTsn) || Gt32(advancedPeerTsnAckPoint, cumulativeTsnAckPoint))
    {
      n := 0;
      if useForwardTsn {
        n := SkipAbandoned();
        if Gt32(advancedPeerTsnAckPoint, cumulativeTsnAckPoint) {
          willSendForwardTsn := true;
        }
      }
    }

    /**
     * `on_retransmission_timeout`: T1-init resends the INIT, T1-cookie the
     * COOKIE ECHO (a failure to do so is ignored), T2-shutdown resends
     * SHUTDOWN or SHUTDOWN ACK as the state asks, T3-rtx is
     * `OnT3RtxTimeout`, and the reconfiguration timer resends the pending
     * request.
     */
    method OnRetransmissionTimeout(timer: Timer) returns (ghost n: nat)
      requires Valid() && |inflightQueue.sorted| < TWO_32
      modifies this`sourcePort, this`destinationPort, this`controlQueue, this`willSendShutdown, this`willSendShutdownAck,
               this`ssthresh, this`cwnd, this`advancedPeerTsnAckPoint, this`willSendForwardTsn, inflightQueue`chunkMap,
               this`willRetransmitReconfig
      ensures Valid()
      ensures timer == T1Init ==>
                if old(storedInit).Some? then
                  sourcePort == INIT_PORT && destinationPort == INIT_PORT
                  && controlQueue == old(controlQueue) + [Packet(CommonHeader(INIT_PORT, INIT_PORT, peerVerificationTag), [Init(storedInit.value)])]
                else unchanged(this)
      ensures timer == T1Cookie ==>
                if old(storedCookieEcho).Some? then
                  controlQueue == old(controlQueue) + [CreatePacket([CookieEcho(storedCookieEcho.value)])]
                  && unchanged(this`sourcePort, this`destinationPort)
                else unchanged(this)
      ensures timer == T2Shutdown ==>
                willSendShutdown == (old(willSendShutdown) || state == ShutdownSent)
                && willSendShutdownAck == (old(willSendShutdownAck) || state == ShutdownAckSent)
                && unchanged(this`controlQueue, this`sourcePort, this`destinationPort)
      ensures timer == T3Rtx ==>
                ssthresh == LossSsthresh(old(cwnd), mtu) && cwnd == mtu
                && inflightQueue.chunkMap.Keys == old(inflightQueue.chunkMap).Keys
                && (forall k :: k in inflightQueue.chunkMap ==>
                      inflightQueue.chunkMap[k] == MarkedForRetransmission(old(inflightQueue.chunkMap)[k]))
                && unchanged(this`controlQueue, this`sourcePort, this`destinationPort)
      ensures timer == Timer.Reconfig ==> willRetransmitReconfig && unchanged(this`controlQueue, this`cwnd, this`ssthresh)
      ensures timer != T3Rtx ==> unchanged(inflightQueue) && unchanged(this`cwnd, this`ssthresh, this`advancedPeerTsnAckPoint)
      ensures timer == Ack ==> unchanged(this)
    {
      if timer == T3Rtx {
        n := OnT3RtxTimeout();
      } else {
        n := 0;
        OnControlTimeout(timer);
      }
    }

    /** The timeouts of `on_retransmission_timeout` other than T3-rtx, which resend control chunks. */
    method OnControlTimeout(timer: Timer)
      requires Valid() && timer != T3Rtx
      modifies this`sourcePort, this`destinationPort, this`controlQueue, this`willSendShutdown, this`willSendShutdownAck,
               this`willRetransmitReconfig
      ensures Valid()
      ensures timer == T1Init ==>
                if old(storedInit).Some? then
                  sourcePort == INIT_PORT && destinationPort == INIT_PORT
                  && controlQueue == old(controlQueue) + [Packet(CommonHeader(INIT_PORT, INIT_PORT, peerVerificationTag), [Init(storedInit.value)])]
                else unchanged(this)
      ensures timer == T1Cookie ==>
                if old(storedCookieEcho).Some? then
                  controlQueue == old(controlQueue) + [CreatePacket([CookieEcho(storedCookieEcho.value)])]
                  && unchanged(this`sourcePort, this`destinationPort)
                else unchanged(this)
      ensures timer == T2Shutdown ==>
                willSendShutdown == (old(willSendShutdown) || state == ShutdownSent)
                && willSendShutdownAck == (old(willSendShutdownAck) || state == ShutdownAckSent)
                && unchanged(this`controlQueue, this`sourcePort, this`destinationPort)
      ensures timer == Timer.Reconfig ==> willRetransmitReconfig && unchanged(this`controlQueue)
      ensures timer == Ack ==> unchanged(this)
    {
      match timer {
        case T1Init =>
          var _ := SendInit();
        case T1Cookie =>
          var _ := SendCookieEcho();
        case T2Shutdown =>
          if state == ShutdownSent {
            willSendShutdown := true;
          } else if state == ShutdownAckSent {
            willSendShutdownAck := true;
          }
        case Reconfig =>
          willRetransmitReconfig := true;
        case Ack =>
      }
    }
  }
}
