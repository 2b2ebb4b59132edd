/**
 * What the sender's two gathering loops select, stated as functions over
 * the queues they walk: the retransmission on T3-rtx expiry walks the
 * in-flight TSNs after the cumulative TSN ack point (section 6.3.3 E3 of
 * RFC 4960), and the draining of the pending queue takes chunks from its
 * head while cwnd and the peer's rwnd allow (section 6.1 A and B of
 * RFC 4960).
 */
module Transmit {
  import opened Serial
  import opened Chunks
  import opened SackScans

  /** The chunk as sent for the first time under TSN `tsn`. */
  function Sending(c: ChunkPayloadData, tsn: u32): ChunkPayloadData {
    c.(tsn := tsn, nsent := 1)
  }

  // ---------------------------------------------------------------------
  // Retransmission after T3-rtx

  /** The in-flight chunks, the bytes gathered, the chunks gathered, and whether the walk is over. */
  datatype Resend = Resend(chunks: map<u32, ChunkPayloadData>, bytes: nat, sent: seq<ChunkPayloadData>, stopped: bool)

  function ResendStart(chunks: map<u32, ChunkPayloadData>): Resend {
    Resend(chunks, 0, [], false)
  }

  /** The chunk as retransmitted: no longer marked, sent once more. */
  function Resent(c: ChunkPayloadData): ChunkPayloadData {
    c.(retransmit := false, nsent := c.nsent + 1)
  }

  /**
   * The `i`-th step of the walk, at TSN `t`: a missing TSN ends it; a
   * chunk not marked for retransmission is passed over; a marked chunk is
   * gathered while the bytes stay within `awnd`, except that the very
   * first TSN is gathered regardless as a zero window probe when it does
   * not fit in the peer's rwnd, and then ends the walk.
   */
  function ResendStep(s: Resend, i: nat, t: u32, awnd: nat, rwnd: nat): Resend {
    if s.stopped then s
    else if t !in s.chunks then s.(stopped := true)
    else
      var c := s.chunks[t];
      if !c.retransmit then s
      else
        var probe := i == 0 && rwnd < |c.userData|;
        if !probe && s.bytes + |c.userData| > awnd then s.(stopped := true)
        else Resend(s.chunks[t := Resent(c)], s.bytes + |c.userData|, s.sent + [Resent(c)], probe)
  }

  /** The first `n` steps of the walk over the TSNs after `cum`. */
  function ResendFold(n: nat, s: Resend, cum: u32, awnd: nat, rwnd: nat): Resend {
    if n == 0 then s else ResendStep(ResendFold(n - 1, s, cum, awnd, rwnd), n - 1, Add32(cum, n), awnd, rwnd)
  }

  /** Once the walk is over, further steps change nothing. */
  lemma {:induction false} ResendFoldStopsForGood(n: nat, m: nat, s: Resend, cum: u32, awnd: nat, rwnd: nat)
    requires n <= m && ResendFold(n, s, cum, awnd, rwnd).stopped
    ensures ResendFold(m, s, cum, awnd, rwnd) == ResendFold(n, s, cum, awnd, rwnd)
    decreases m - n
  {
    if n < m {
      ResendFoldStopsForGood(n, m - 1, s, cum, awnd, rwnd);
    }
  }

  /** A walk still going after `n` steps found every one of the TSNs it visited in flight. */
  lemma {:induction false} ResendFoldPresent(n: nat, s: Resend, cum: u32, awnd: nat, rwnd: nat)
    requires !s.stopped
    ensures var r := ResendFold(n, s, cum, awnd, rwnd);
            r.chunks.Keys == s.chunks.Keys
            && (!r.stopped ==> forall k :: 1 <= k <= n ==> Add32(cum, k) in s.chunks)
  {
    if n > 0 {
      ResendFoldPresent(n - 1, s, cum, awnd, rwnd);
    }
  }

  /** Every chunk of `chunks` is stored under its own TSN. */
  ghost predicate Keyed(chunks: map<u32, ChunkPayloadData>) {
    forall k :: k in chunks ==> chunks[k].tsn == k
  }

  /**
   * What the walk keeps true: only chunks marked for retransmission
   * change, each to `Resent` of itself and only when gathered; every
   * gathered chunk is one of those; the bytes are the data of the
   * gathered chunks, and they exceed `awnd` only for the zero window
   * probe, gathered alone at the first TSN.
   */
  ghost predicate Resending(c0: map<u32, ChunkPayloadData>, r: Resend, cum: u32, awnd: nat, rwnd: nat) {
    ResendChanges(c0, r) && ResendGathers(c0, r, cum, awnd, rwnd)
  }

  /** Only gathered chunks marked for retransmission change, each to `Resent` of itself. */
  ghost predicate ResendChanges(c0: map<u32, ChunkPayloadData>, r: Resend) {
    r.chunks.Keys == c0.Keys
    && (forall k :: k in c0 ==> r.chunks[k] == c0[k] || (c0[k].retransmit && r.chunks[k] == Resent(c0[k])))
    && (forall k :: k in c0 && r.chunks[k] != c0[k] ==> exists j :: 0 <= j < |r.sent| && r.sent[j].tsn == k)
  }

  /** The gathered chunks are marked ones, resent, and fit `awnd` but for a lone zero window probe. */
  ghost predicate ResendGathers(c0: map<u32, ChunkPayloadData>, r: Resend, cum: u32, awnd: nat, rwnd: nat) {
    r.chunks.Keys == c0.Keys
    && (forall j :: 0 <= j < |r.sent| ==>
          r.sent[j].tsn in c0 && c0[r.sent[j].tsn].retransmit && r.sent[j] == Resent(c0[r.sent[j].tsn])
          && r.chunks[r.sent[j].tsn] == r.sent[j])
    && r.bytes == DataLength(r.sent)
    && (r.bytes > awnd ==>
          |r.sent| == 1 && r.stopped && r.sent[0].tsn == Add32(cum, 1) && rwnd < |r.sent[0].userData|)
  }

  lemma DataLengthAppend(cs: seq<ChunkPayloadData>, c: ChunkPayloadData)
    ensures DataLength(cs + [c]) == DataLength(cs) + |c.userData|
  {
    assert (cs + [c])[..|cs|] == cs;
  }

  lemma ResendStepKeeps(c0: map<u32, ChunkPayloadData>, r: Resend, i: nat, t: u32, cum: u32, awnd: nat, rwnd: nat, r': Resend)
    requires Keyed(c0) && Resending(c0, r, cum, awnd, rwnd)
    requires t == Add32(cum, i + 1) && (i == 0 ==> r.sent == [])
    requires r' == ResendStep(r, i, t, awnd, rwnd)
    ensures Resending(c0, r', cum, awnd, rwnd)
  {
    if r.stopped || !(t in r.chunks) {
      assert r' == r || r' == r.(stopped := true);
    } else if !r.chunks[t].retransmit {
      assert r' == r;
    } else {
      var c := r.chunks[t];
      var probe := i == 0 && rwnd < |c.userData|;
      if probe || r.bytes + |c.userData| <= awnd {
        ResendGatherKeeps(c0, r, t, probe, cum, awnd, rwnd, r');
      } else {
        assert r' == r.(stopped := true);
      }
    }
  }

  /** Gathering the marked chunk at `t` keeps `Resending`. */
  lemma ResendGatherKeeps(c0: map<u32, ChunkPayloadData>, r: Resend, t: u32, probe: bool, cum: u32, awnd: nat, rwnd: nat, r': Resend)
    requires Keyed(c0) && Resending(c0, r, cum, awnd, rwnd)
    requires !r.stopped && t in r.chunks && r.chunks[t].retransmit
    requires probe ==> r.sent == [] && t == Add32(cum, 1) && rwnd < |r.chunks[t].userData|
    requires !probe ==> r.bytes + |r.chunks[t].userData| <= awnd
    requires r' == Resend(r.chunks[t := Resent(r.chunks[t])], r.bytes + |r.chunks[t].userData|, r.sent + [Resent(r.chunks[t])], probe)
    ensures Resending(c0, r', cum, awnd, rwnd)
  {
    assert r.chunks[t] == c0[t];
    assert Resent(c0[t]).tsn == t;
    GatherChanges(c0, r, t, r');
    GatherGathers(c0, r, t, probe, cum, awnd, rwnd, r');
  }

  lemma GatherChanges(c0: map<u32, ChunkPayloadData>, r: Resend, t: u32, r': Resend)
    requires ResendChanges(c0, r) && t in c0 && c0[t].retransmit && r.chunks[t] == c0[t]
    requires r'.chunks == r.chunks[t := Resent(c0[t])] && r'.sent == r.sent + [Resent(c0[t])] && Resent(c0[t]).tsn == t
    ensures ResendChanges(c0, r')
  {
    forall k | k in c0 && r'.chunks[k] != c0[k]
      ensures exists j :: 0 <= j < |r'.sent| && r'.sent[j].tsn == k
    {
      if k == t {
        assert r'.sent[|r.sent|].tsn == k;
      } else {
        var j :| 0 <= j < |r.sent| && r.sent[j].tsn == k;
        assert r'.sent[j].tsn == k;
      }
    }
  }

  lemma GatherGathers(c0: map<u32, ChunkPayloadData>, r: Resend, t: u32, probe: bool, cum: u32, awnd: nat, rwnd: nat, r': Resend)
    requires ResendGathers(c0, r, cum, awnd, rwnd) && !r.stopped && t in c0 && c0[t].retransmit
    requires r.chunks[t] == c0[t]
    requires probe ==> r.sent == [] && t == Add32(cum, 1) && rwnd < |c0[t].userData|
    requires !probe ==> r.bytes + |c0[t].userData| <= awnd
    requires r' == Resend(r.chunks[t := Resent(c0[t])], r.bytes + |c0[t].userData|, r.sent + [Resent(c0[t])], probe)
    requires Resent(c0[t]).tsn == t
    ensures ResendGathers(c0, r', cum, awnd, rwnd)
  {
    DataLengthAppend(r.sent, Resent(c0[t]));
    forall j | 0 <= j < |r.sent|
      ensures r.sent[j].tsn != t
    {
      assert r.chunks[r.sent[j].tsn] == r.sent[j];
    }
    forall j | 0 <= j < |r'.sent|
      ensures r'.sent[j].tsn in c0 && c0[r'.sent[j].tsn].retransmit && r'.sent[j] == Resent(c0[r'.sent[j].tsn])
              && r'.chunks[r'.sent[j].tsn] == r'.sent[j]
    {
      if j < |r.sent| {
        assert r'.sent[j] == r.sent[j];
      }
    }
  }

  /** The walk from the start keeps `Resending` at every step. */
  lemma {:induction false} ResendFoldKeeps(n: nat, c0: map<u32, ChunkPayloadData>, cum: u32, awnd: nat, rwnd: nat, r: Resend)
    requires Keyed(c0) && r == ResendFold(n, ResendStart(c0), cum, awnd, rwnd)
    ensures Resending(c0, r, cum, awnd, rwnd)
  {
    if n > 0 {
      var prev := ResendFold(n - 1, ResendStart(c0), cum, awnd, rwnd);
      ResendFoldKeeps(n - 1, c0, cum, awnd, rwnd, prev);
      ResendStepKeeps(c0, prev, n - 1, Add32(cum, n), cum, awnd, rwnd, r);
    }
  }

  // ---------------------------------------------------------------------
  // Draining the pending queue

  /** The chunks moved in flight, the streams to reset, what stays pending, the rwnd left and the next TSN. */
  datatype DrainResult = DrainResult(sent: seq<ChunkPayloadData>, resets: seq<u16>, rest: seq<ChunkPayloadData>, rwnd: u32, nextTsn: u32)

  /**
   * The loop of `pop_pending_data_chunks_to_send`: a chunk without data
   * marks its stream for reset and is dropped; a chunk with data moves in
   * flight under the next TSN while the in-flight bytes plus its length
   * stay within cwnd and its length within the rwnd, which it uses up;
   * the first chunk that does not fit ends the loop.
   */
  function Drain(pending: seq<ChunkPayloadData>, inflightBytes: nat, cwnd: nat, rwnd: u32, nextTsn: u32): DrainResult
    decreases |pending|
  {
    if pending == [] then DrainResult([], [], [], rwnd, nextTsn)
    else
      var c := pending[0];
      var len := |c.userData|;
      if len == 0 then
        var d := Drain(pending[1..], inflightBytes, cwnd, rwnd, nextTsn);
        d.(resets := [c.streamIdentifier] + d.resets)
      else if inflightBytes + len > cwnd || len > rwnd then DrainResult([], [], pending, rwnd, nextTsn)
      else
        var d := Drain(pending[1..], inflightBytes + len, cwnd, rwnd - len, Add32(nextTsn, 1));
        d.(sent := [Sending(c, nextTsn)] + d.sent)
  }

  /** The drain of the rest of the queue after `sent` and `resets` were taken from its front. */
  function Prepend(sent: seq<ChunkPayloadData>, resets: seq<u16>, d: DrainResult): DrainResult {
    d.(sent := sent + d.sent, resets := resets + d.resets)
  }

  /** Taking a head without data from the front moves its stream to the resets. */
  lemma DrainResetStep(pending: seq<ChunkPayloadData>, inflightBytes: nat, cwnd: nat, rwnd: u32, nextTsn: u32,
                       sent: seq<ChunkPayloadData>, resets: seq<u16>)
    requires pending != [] && |pending[0].userData| == 0
    ensures Prepend(sent, resets, Drain(pending, inflightBytes, cwnd, rwnd, nextTsn))
              == Prepend(sent, resets + [pending[0].streamIdentifier], Drain(pending[1..], inflightBytes, cwnd, rwnd, nextTsn))
  {
    var d := Drain(pending[1..], inflightBytes, cwnd, rwnd, nextTsn);
    assert (resets + [pending[0].streamIdentifier]) + d.resets == resets + ([pending[0].streamIdentifier] + d.resets);
  }

  /** Taking a head that fits from the front sends it under the next TSN. */
  lemma DrainSendStep(pending: seq<ChunkPayloadData>, inflightBytes: nat, cwnd: nat, rwnd: u32, nextTsn: u32,
                      sent: seq<ChunkPayloadData>, resets: seq<u16>)
    requires pending != [] && 0 < |pending[0].userData| <= rwnd as int && inflightBytes + |pending[0].userData| <= cwnd
    ensures var len := |pending[0].userData|;
            Prepend(sent, resets, Drain(pending, inflightBytes, cwnd, rwnd, nextTsn))
              == Prepend(sent + [Sending(pending[0], nextTsn)], resets,
                         Drain(pending[1..], inflightBytes + len, cwnd, rwnd - len as u32, Add32(nextTsn, 1)))
  {
    var len := |pending[0].userData|;
    var d := Drain(pending[1..], inflightBytes + len, cwnd, rwnd - len as u32, Add32(nextTsn, 1));
    assert (sent + [Sending(pending[0], nextTsn)]) + d.sent == sent + ([Sending(pending[0], nextTsn)] + d.sent);
  }

  /** `chunks` with each of `cs` stored under its TSN, in order. */
  function Added(chunks: map<u32, ChunkPayloadData>, cs: seq<ChunkPayloadData>): map<u32, ChunkPayloadData>
    decreases |cs|
  {
    if cs == [] then chunks else Added(chunks, cs[..|cs| - 1])[cs[|cs| - 1].tsn := cs[|cs| - 1]]
  }

  /** The chunks of `cs` that carry data, in order. */
  function WithData(cs: seq<ChunkPayloadData>): seq<ChunkPayloadData>
    decreases |cs|
  {
    if cs == [] then [] else (if |cs[0].userData| > 0 then [cs[0]] else []) + WithData(cs[1..])
  }

  /** The streams of the chunks of `cs` without data, in order. */
  function ResetStreams(cs: seq<ChunkPayloadData>): seq<u16>
    decreases |cs|
  {
    if cs == [] then [] else (if |cs[0].userData| == 0 then [cs[0].streamIdentifier] else []) + ResetStreams(cs[1..])
  }

  /** `cs` sent in order under the consecutive TSNs from `tsn`. */
  function Stamped(cs: seq<ChunkPayloadData>, tsn: u32): (r: seq<ChunkPayloadData>)
    ensures |r| == |cs| && forall j :: 0 <= j < |cs| ==> r[j] == Sending(cs[j], Add32(tsn, j))
  {
    seq(|cs|, j requires 0 <= j < |cs| => Sending(cs[j], Add32(tsn, j)))
  }

  /**
   * `d` consumed a prefix of `pending`: the chunks sent are the prefix's
   * chunks with data, under consecutive TSNs from `nextTsn`, the streams
   * reset are those of its chunks without data, and the rest is what
   * follows the prefix.
   */
  ghost predicate Consumed(pending: seq<ChunkPayloadData>, nextTsn: u32, d: DrainResult) {
    var m := |pending| - |d.rest|;
    |d.rest| <= |pending| && pending[m..] == d.rest
    && d.sent == Stamped(WithData(pending[..m]), nextTsn)
    && d.resets == ResetStreams(pending[..m])
    && d.nextTsn == Add32(nextTsn, |d.sent|)
  }

  /** The drain splits the pending queue into a prefix it consumed and the rest. */
  lemma {:induction false} DrainConsumes(pending: seq<ChunkPayloadData>, inflightBytes: nat, cwnd: nat, rwnd: u32, nextTsn: u32, d: DrainResult)
    requires d == Drain(pending, inflightBytes, cwnd, rwnd, nextTsn)
    ensures Consumed(pending, nextTsn, d)
    decreases |pending|
  {
    if pending == [] {
      assert pending[..0] == [];
    } else {
      var c := pending[0];
      var len := |c.userData|;
      if len == 0 {
        var d' := Drain(pending[1..], inflightBytes, cwnd, rwnd, nextTsn);
        DrainConsumes(pending[1..], inflightBytes, cwnd, rwnd, nextTsn, d');
        ConsumedReset(pending, nextTsn, d', d);
      } else if inflightBytes + len > cwnd || len > rwnd {
        assert pending[..0] == [];
      } else {
        var next' := Add32(nextTsn, 1);
        var d' := Drain(pending[1..], inflightBytes + len, cwnd, rwnd - len, next');
        DrainConsumes(pending[1..], inflightBytes + len, cwnd, rwnd - len, next', d');
        ConsumedSend(pending, nextTsn, d', d);
      }
    }
  }

  lemma ConsumedReset(pending: seq<ChunkPayloadData>, nextTsn: u32, d': DrainResult, d: DrainResult)
    requires pending != [] && |pending[0].userData| == 0 && Consumed(pending[1..], nextTsn, d')
    requires d == d'.(resets := [pending[0].streamIdentifier] + d'.resets)
    ensures Consumed(pending, nextTsn, d)
  {
    var m := |pending| - |d.rest|;
    PrefixCons(pending, m);
    assert pending[m..] == pending[1..][m - 1..];
  }

  lemma ConsumedSend(pending: seq<ChunkPayloadData>, nextTsn: u32, d': DrainResult, d: DrainResult)
    requires pending != [] && |pending[0].userData| > 0 && Consumed(pending[1..], Add32(nextTsn, 1), d')
    requires d == d'.(sent := [Sending(pending[0], nextTsn)] + d'.sent)
    ensures Consumed(pending, nextTsn, d)
  {
    var m := |pending| - |d.rest|;
    PrefixCons(pending, m);
    assert pending[m..] == pending[1..][m - 1..];
    StampedCons(pending[0], WithData(pending[1..][..m - 1]), nextTsn);
    AddAdd(nextTsn, 1, |d'.sent|);
  }

  /** The chunks with data and the streams to reset of a non-empty prefix, from its head and its tail. */
  lemma PrefixCons(p: seq<ChunkPayloadData>, m: nat)
    requires 0 < m <= |p|
    ensures WithData(p[..m]) == (if |p[0].userData| > 0 then [p[0]] else []) + WithData(p[1..][..m - 1])
    ensures ResetStreams(p[..m]) == (if |p[0].userData| == 0 then [p[0].streamIdentifier] else []) + ResetStreams(p[1..][..m - 1])
  {
    assert p[..m][0] == p[0];
    assert p[..m][1..] == p[1..][..m - 1];
  }

  lemma StampedCons(c: ChunkPayloadData, cs: seq<ChunkPayloadData>, t: u32)
    ensures Stamped([c] + cs, t) == [Sending(c, t)] + Stamped(cs, Add32(t, 1))
  {
    forall j | 0 < j < |cs| + 1
      ensures Stamped([c] + cs, t)[j] == Sending(cs[j - 1], Add32(Add32(t, 1), j - 1))
    {
      AddAdd(t, 1, j - 1);
    }
  }

  /**
   * The data sent fits the cwnd on top of the in-flight bytes and is
   * taken off the rwnd; what stays pending, unless nothing, starts with a
   * chunk with data that fits one of the two no more.
   */
  lemma {:induction false} DrainFits(pending: seq<ChunkPayloadData>, inflightBytes: nat, cwnd: nat, rwnd: u32, nextTsn: u32, d: DrainResult)
    requires d == Drain(pending, inflightBytes, cwnd, rwnd, nextTsn)
    ensures d.rwnd as nat + DataLength(d.sent) == rwnd as nat
    ensures d.sent != [] ==> inflightBytes + DataLength(d.sent) <= cwnd
    ensures d.rest != [] ==>
              |d.rest[0].userData| > 0
              && (inflightBytes + DataLength(d.sent) + |d.rest[0].userData| > cwnd || |d.rest[0].userData| > d.rwnd)
    decreases |pending|
  {
    if pending != [] {
      var c := pending[0];
      var len := |c.userData|;
      if len == 0 {
        DrainFits(pending[1..], inflightBytes, cwnd, rwnd, nextTsn, Drain(pending[1..], inflightBytes, cwnd, rwnd, nextTsn));
      } else if !(inflightBytes + len > cwnd || len > rwnd) {
        var d' := Drain(pending[1..], inflightBytes + len, cwnd, rwnd - len, Add32(nextTsn, 1));
        DrainFits(pending[1..], inflightBytes + len, cwnd, rwnd - len, Add32(nextTsn, 1), d');
        DrainSent(c, d'.sent, nextTsn);
      }
    }
  }

  lemma DrainSent(c: ChunkPayloadData, sent: seq<ChunkPayloadData>, tsn: u32)
    ensures DataLength([Sending(c, tsn)] + sent) == |c.userData| + DataLength(sent)
    decreases |sent|
  {
    if sent != [] {
      var s := [Sending(c, tsn)] + sent;
      assert s[..|s| - 1] == [Sending(c, tsn)] + sent[..|sent| - 1];
      DrainSent(c, sent[..|sent| - 1], tsn);
    }
  }
}
