/**
 * Fast retransmit on a SACK (section 7.2.4 of RFC 4960, with the HTNA
 * rule): each in-flight chunk reported missing below a bound gains a miss
 * indication, and the third one puts the sender into fast recovery with
 * ssthresh and cwnd cut as section 7.2.3 says.
 */
module FastRetransmit {
  import opened Serial
  import opened Errors
  import opened Chunks
  import opened Congestion

  /** The miss indications of at most this many SACKs trigger a fast retransmit. */
  const FAST_RETRANSMIT_MISSES: nat := 3

  /** The sender state `process_fast_retransmission` changes. */
  datatype Recovery = Recovery(chunks: map<u32, ChunkPayloadData>, inFastRecovery: bool, exitPoint: u32,
                               ssthresh: u32, cwnd: u32, partialBytesAcked: u32, willRetransmitFast: bool)

  /** The TSNs `start`, `start + 1`, ..., `n` of them, wrapping. */
  function TsnsFrom(start: u32, n: nat): (ts: seq<u32>)
    ensures |ts| == n && forall k :: 0 <= k < n ==> ts[k] == Add32(start, k)
  {
    if n == 0 then [] else TsnsFrom(start, n - 1) + [Add32(start, n - 1)]
  }

  /**
   * One TSN reported missing: a chunk neither acknowledged nor abandoned,
   * with fewer than three miss indications, gains one; reaching three
   * outside fast recovery enters it, with the exit point at the HTNA.
   */
  function MissStep(s: Recovery, t: u32, htna: u32, mtu: u32): Recovery
    requires t in s.chunks
  {
    var c := s.chunks[t];
    if !c.acked && !c.abandoned && c.missIndicator < FAST_RETRANSMIT_MISSES then
      var s1 := s.(chunks := s.chunks[t := c.(missIndicator := c.missIndicator + 1)]);
      if c.missIndicator + 1 == FAST_RETRANSMIT_MISSES && !s.inFastRecovery then
        var ssthresh := LossSsthresh(s.cwnd, mtu);
        s1.(inFastRecovery := true, exitPoint := htna, ssthresh := ssthresh, cwnd := ssthresh,
            partialBytesAcked := 0, willRetransmitFast := true)
      else s1
    else s
  }

  /** The TSNs `ts` in order; a TSN not in flight is `ErrTsnRequestNotExist`. */
  function MissFold(ts: seq<u32>, s: Recovery, htna: u32, mtu: u32): Result<Recovery>
    decreases |ts|
  {
    if ts == [] then Ok(s)
    else
      match MissFold(ts[..|ts| - 1], s, htna, mtu)
      case Err(e) => Err(e)
      case Ok(s') =>
        var t := ts[|ts| - 1];
        if t in s'.chunks then Ok(MissStep(s', t, htna, mtu)) else Err(ErrTsnRequestNotExist)
  }

  /** `c'` is `c` with only its miss indicator raised, and never past three. */
  ghost predicate MissRaised(c: ChunkPayloadData, c': ChunkPayloadData) {
    c' == c.(missIndicator := c'.missIndicator)
    && c.missIndicator <= c'.missIndicator
    && (c'.missIndicator == c.missIndicator || c'.missIndicator <= FAST_RETRANSMIT_MISSES)
  }

  /** The scan fails exactly when a visited TSN is not in flight; otherwise it only raises miss indicators. */
  lemma MissFoldChunks(ts: seq<u32>, s: Recovery, htna: u32, mtu: u32)
    ensures MissFold(ts, s, htna, mtu).Err? <==> exists j :: 0 <= j < |ts| && ts[j] !in s.chunks
    ensures MissFold(ts, s, htna, mtu).Err? ==> MissFold(ts, s, htna, mtu).error == ErrTsnRequestNotExist
    ensures MissFold(ts, s, htna, mtu).Ok? ==>
              var r := MissFold(ts, s, htna, mtu).value;
              r.chunks.Keys == s.chunks.Keys && forall k :: k in s.chunks ==> MissRaised(s.chunks[k], r.chunks[k])
  {
    MissFoldFails(ts, s, htna, mtu);
    MissFoldRaises(ts, s, htna, mtu);
  }

  lemma {:induction false} MissFoldFails(ts: seq<u32>, s: Recovery, htna: u32, mtu: u32)
    ensures MissFold(ts, s, htna, mtu).Err? <==> exists j :: 0 <= j < |ts| && ts[j] !in s.chunks
    ensures MissFold(ts, s, htna, mtu).Err? ==> MissFold(ts, s, htna, mtu).error == ErrTsnRequestNotExist
    decreases |ts|
  {
    if ts != [] {
      var p := ts[..|ts| - 1];
      MissFoldFails(p, s, htna, mtu);
      MissFoldRaises(p, s, htna, mtu);
      assert forall j :: 0 <= j < |p| ==> p[j] == ts[j];
    }
  }

  lemma {:induction false} MissFoldRaises(ts: seq<u32>, s: Recovery, htna: u32, mtu: u32)
    ensures MissFold(ts, s, htna, mtu).Ok? ==>
              var r := MissFold(ts, s, htna, mtu).value;
              r.chunks.Keys == s.chunks.Keys && forall k :: k in s.chunks ==> MissRaised(s.chunks[k], r.chunks[k])
    decreases |ts|
  {
    if ts != [] {
      MissFoldRaises(ts[..|ts| - 1], s, htna, mtu);
    }
  }

  /** A scan that fails on a prefix of the TSNs fails on all of them. */
  lemma MissFoldErrPrefix(ts: seq<u32>, k: nat, s: Recovery, htna: u32, mtu: u32)
    requires k <= |ts| && MissFold(ts[..k], s, htna, mtu).Err?
    ensures MissFold(ts, s, htna, mtu).Err?
  {
    MissFoldChunks(ts[..k], s, htna, mtu);
    MissFoldChunks(ts, s, htna, mtu);
    var j :| 0 <= j < k && ts[..k][j] !in s.chunks;
    assert ts[j] !in s.chunks;
  }

  /**
   * Fast recovery is entered at most once: outside it the window is cut
   * to `LossSsthresh` of the cwnd before the SACK and the exit point set to
   * the HTNA; inside it, or without a third miss, the window stays as it
   * was. Without entering, only the chunks change.
   */
  lemma {:induction false} MissFoldRecovery(ts: seq<u32>, s: Recovery, htna: u32, mtu: u32)
    requires MissFold(ts, s, htna, mtu).Ok?
    ensures var r := MissFold(ts, s, htna, mtu).value;
            (s.inFastRecovery ==> r == s.(chunks := r.chunks))
            && (!r.inFastRecovery ==> r == s.(chunks := r.chunks))
            && (!s.inFastRecovery && r.inFastRecovery ==>
                  r.ssthresh == LossSsthresh(s.cwnd, mtu) && r.cwnd == r.ssthresh && r.partialBytesAcked == 0
                  && r.exitPoint == htna && r.willRetransmitFast)
    decreases |ts|
  {
    if ts != [] {
      MissFoldRecovery(ts[..|ts| - 1], s, htna, mtu);
    }
  }

  /**
   * Outside fast recovery, the sender enters it exactly when some chunk
   * reached its third miss indication during the scan.
   */
  lemma {:induction false} MissFoldEntersOnThirdMiss(ts: seq<u32>, s: Recovery, htna: u32, mtu: u32)
    requires MissFold(ts, s, htna, mtu).Ok? && !s.inFastRecovery
    ensures var r := MissFold(ts, s, htna, mtu).value;
            MissFold(ts, s, htna, mtu).value.chunks.Keys == s.chunks.Keys
            && (r.inFastRecovery <==>
                  exists k :: k in s.chunks && s.chunks[k].missIndicator < FAST_RETRANSMIT_MISSES
                                            && r.chunks[k].missIndicator == FAST_RETRANSMIT_MISSES)
    decreases |ts|
  {
    MissFoldChunks(ts, s, htna, mtu);
    if ts != [] {
      var p := ts[..|ts| - 1];
      var t := ts[|ts| - 1];
      MissFoldEntersOnThirdMiss(p, s, htna, mtu);
      MissFoldChunks(p, s, htna, mtu);
      var m := MissFold(p, s, htna, mtu).value;
      var r := MissFold(ts, s, htna, mtu).value;
      assert r == MissStep(m, t, htna, mtu);
      if m.inFastRecovery {
        var k :| k in s.chunks && s.chunks[k].missIndicator < FAST_RETRANSMIT_MISSES
                 && m.chunks[k].missIndicator == FAST_RETRANSMIT_MISSES;
        assert r.chunks[k].missIndicator == FAST_RETRANSMIT_MISSES;
      } else if r.inFastRecovery {
        assert s.chunks[t].missIndicator < FAST_RETRANSMIT_MISSES;
        assert r.chunks[t].missIndicator == FAST_RETRANSMIT_MISSES;
      } else {
        forall k | k in s.chunks && s.chunks[k].missIndicator < FAST_RETRANSMIT_MISSES
          ensures r.chunks[k].missIndicator != FAST_RETRANSMIT_MISSES
        {
          assert m.chunks[k].missIndicator != FAST_RETRANSMIT_MISSES;
        }
      }
    }
  }
}
