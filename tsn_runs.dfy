/**
 * Walks over consecutive TSNs, the shape of the association's loops that
 * start after an ack point and step the TSN by one: how many TSNs a
 * cumulative ack covers, why a walk over queued TSNs ends, and the
 * per-stream SSN report a FORWARD TSN chunk carries
 * (section 3.5, rule C4, of RFC 3758).
 */
module TsnRuns {
  import opened Serial
  import opened Chunks

  /**
   * How many TSNs the loop `i := cum + 1; while i <=serial target { ...; i += 1 }`
   * visits: the forward distance when `target` is at most half the circle
   * ahead of `cum`, and none otherwise.
   */
  function AckedRunLength(cum: u32, target: u32): (n: nat)
    ensures n <= HALF_32
    ensures n > 0 ==> n == Distance(cum, target)
  {
    var d := Distance(cum, target);
    if 1 <= d <= HALF_32 then d else 0
  }

  /** The loop guard holds at the TSN after the first `p` visited ones exactly while fewer than the run length were visited. */
  lemma AckedRunGuard(cum: u32, target: u32, p: nat)
    requires p <= AckedRunLength(cum, target)
    ensures Lte32(Add32(cum, p + 1), target) <==> p < AckedRunLength(cum, target)
  {
  }

  /** From the `p`-th visited TSN the loop steps to the next one, and only the first visited TSN follows the ack point directly. */
  lemma AckedRunNext(cum: u32, target: u32, p: nat)
    requires p < AckedRunLength(cum, target)
    ensures Add32(cum, p + 1) == Add32(cum, 1) <==> p == 0
    ensures Add32(Add32(cum, p + 1), 1) == Add32(cum, p + 2)
    ensures Lte32(Add32(cum, p + 2), target) <==> p + 1 < AckedRunLength(cum, target)
  {
    assert Add32(cum, p + 1) == Add32(cum, 1) <==> p == 0 by {
      DistanceOfAdd(cum, p + 1);
      DistanceOfAdd(cum, 1);
    }
    AddStep(cum, p + 1);
    AckedRunGuard(cum, target, p + 1);
  }

  /** A target serially below the ack point is dropped, and every other target at most half the circle ahead is walked to. */
  lemma AckedRunReachesTarget(cum: u32, target: u32)
    requires !Gt32(cum, target)
    ensures AckedRunLength(cum, target) == Distance(cum, target)
    ensures Add32(cum, AckedRunLength(cum, target)) == target
  {
    AddOfDistance(cum, target);
  }

  /** How many times `while from <serial target { from += 1 }` steps: the distance when `target` is serially ahead, else none. */
  function ForwardRunLength(from: u32, target: u32): (n: nat)
    ensures n < HALF_32
    ensures n > 0 <==> Lt32(from, target)
    ensures n > 0 ==> n == Distance(from, target)
  {
    LtIsShortForwardDistance(from, target);
    if Lt32(from, target) then Distance(from, target) else 0
  }

  /** After `p` steps the guard holds exactly while fewer than the run length were taken, and the run ends on `target`. */
  lemma ForwardRunGuard(from: u32, target: u32, p: nat)
    requires p <= ForwardRunLength(from, target)
    ensures Lt32(Add32(from, p), target) <==> p < ForwardRunLength(from, target)
    ensures p == ForwardRunLength(from, target) && p > 0 ==> Add32(from, p) == target
  {
    var n := ForwardRunLength(from, target);
    if n > 0 {
      AddOfDistance(from, target);
      DistanceOfAdd(from, p);
      DistanceRebase(from, Add32(from, p), target);
      LtIsShortForwardDistance(Add32(from, p), target);
    } else {
      assert p == 0;
    }
  }

  /** The TSNs base+1, ..., base+n. */
  ghost function Following(base: u32, n: nat): set<u32> {
    if n == 0 then {} else Following(base, n - 1) + {Add32(base, n)}
  }

  lemma {:induction false} FollowingExcludes(base: u32, n: nat, k: nat)
    requires n < k <= TWO_32
    ensures Add32(base, k) !in Following(base, n)
  {
    if n > 0 {
      assert Add32(base, k) != Add32(base, n) by {
        assert 0 < k - n < TWO_32;
      }
      FollowingExcludes(base, n - 1, k);
    }
  }

  lemma {:induction false} FollowingSize(base: u32, n: nat)
    requires n <= TWO_32
    ensures |Following(base, n)| == n
  {
    if n > 0 {
      FollowingSize(base, n - 1);
      FollowingExcludes(base, n - 1, n);
    }
  }

  lemma {:induction false} FollowingWithin(base: u32, n: nat, keys: set<u32>)
    requires forall k :: 1 <= k <= n ==> Add32(base, k) in keys
    ensures Following(base, n) <= keys
  {
    if n > 0 {
      FollowingWithin(base, n - 1, keys);
    }
  }

  lemma SubsetSize(a: set<u32>, b: set<u32>)
    requires a <= b
    ensures |a| <= |b|
  {
    assert b == a + (b - a);
  }

  /**
   * A walk that found base+1, ..., base+n all present in `keys` took at
   * most |keys| steps: a loop over queued TSNs ends once the queue is
   * exhausted.
   */
  lemma RunFitsInKeys(base: u32, n: nat, keys: set<u32>)
    requires n <= TWO_32
    requires forall k :: 1 <= k <= n ==> Add32(base, k) in keys
    ensures n <= |keys|
  {
    FollowingWithin(base, n, keys);
    FollowingSize(base, n);
    SubsetSize(Following(base, n), keys);
  }

  /** A run of present TSNs followed by a present TSN is one longer. */
  lemma RunExtends(base: u32, n: nat, keys: set<u32>)
    requires forall k :: 1 <= k <= n ==> Add32(base, k) in keys
    requires Add32(base, n + 1) in keys
    ensures forall k :: 1 <= k <= n + 1 ==> Add32(base, k) in keys
  {
  }

  /** The map entry for a chunk's stream after seeing the chunk: its SSN, unless an entry already holds a serially later one. */
  function ReportSsn(m: map<u16, u16>, c: ChunkPayloadData): (r: map<u16, u16>)
    ensures r.Keys == m.Keys + {c.streamIdentifier}
  {
    if c.streamIdentifier in m then
      if Lt16(m[c.streamIdentifier], c.streamSequenceNumber) then m[c.streamIdentifier := c.streamSequenceNumber] else m
    else m[c.streamIdentifier := c.streamSequenceNumber]
  }

  /** The stream map `create_forward_tsn` builds from the skipped chunks, in TSN order. */
  function SsnReport(cs: seq<ChunkPayloadData>): map<u16, u16>
    decreases |cs|
  {
    if cs == [] then map[] else ReportSsn(SsnReport(cs[..|cs| - 1]), cs[|cs| - 1])
  }

  /** `m` names exactly the streams of the chunks in `cs`, each with the SSN of one of that stream's chunks. */
  ghost predicate ReportsStreamsOf(m: map<u16, u16>, cs: seq<ChunkPayloadData>) {
    (forall si :: si in m <==> exists j :: 0 <= j < |cs| && cs[j].streamIdentifier == si)
    && (forall si :: si in m ==> exists j :: 0 <= j < |cs| && cs[j].streamIdentifier == si && cs[j].streamSequenceNumber == m[si])
  }

  /**
   * The report names every stream of the skipped chunks once, each with
   * the SSN of one of that stream's chunks.
   */
  lemma {:induction false} SsnReportIsSound(cs: seq<ChunkPayloadData>)
    ensures ReportsStreamsOf(SsnReport(cs), cs)
    decreases |cs|
  {
    if cs != [] {
      var p := cs[..|cs| - 1];
      SsnReportIsSound(p);
      ReportStep(SsnReport(p), p, cs);
    }
  }

  lemma ReportStep(m: map<u16, u16>, p: seq<ChunkPayloadData>, cs: seq<ChunkPayloadData>)
    requires cs != [] && p == cs[..|cs| - 1]
    requires ReportsStreamsOf(m, p)
    ensures ReportsStreamsOf(ReportSsn(m, cs[|cs| - 1]), cs)
  {
    var c := cs[|cs| - 1];
    var r := ReportSsn(m, c);
    forall si | si in r
      ensures exists j :: 0 <= j < |cs| && cs[j].streamIdentifier == si && cs[j].streamSequenceNumber == r[si]
    {
      if si == c.streamIdentifier && r[si] == c.streamSequenceNumber {
        assert cs[|cs| - 1] == c;
      } else {
        var j :| 0 <= j < |p| && p[j].streamIdentifier == si && p[j].streamSequenceNumber == m[si];
        assert cs[j] == p[j];
      }
    }
    forall si | exists j :: 0 <= j < |cs| && cs[j].streamIdentifier == si
      ensures si in r
    {
      var j :| 0 <= j < |cs| && cs[j].streamIdentifier == si;
      if j < |p| {
        assert p[j] == cs[j];
      }
    }
  }

  /** Each chunk's SSN lies in the half circle from its stream's `base` on, where `sna16lt` is a total order. */
  ghost predicate WithinSsnWindows(cs: seq<ChunkPayloadData>, base: map<u16, u16>) {
    forall j :: 0 <= j < |cs| ==>
      cs[j].streamIdentifier in base && Distance16(base[cs[j].streamIdentifier], cs[j].streamSequenceNumber) < HALF_16
  }

  /** Every chunk's stream is reported with an SSN no chunk of that stream serially follows. */
  ghost predicate ReportsGreatest(m: map<u16, u16>, cs: seq<ChunkPayloadData>, base: map<u16, u16>)
    requires WithinSsnWindows(cs, base)
  {
    forall j :: 0 <= j < |cs| ==>
      var si := cs[j].streamIdentifier;
      si in m && Distance16(base[si], cs[j].streamSequenceNumber) <= Distance16(base[si], m[si])
  }

  /**
   * When each stream's SSNs lie within half the 16-bit circle, the report
   * carries each stream's greatest SSN: no chunk of that stream has a
   * serially later one, so the stream is reported only once and with the
   * greatest SSN, as `create_forward_tsn` intends.
   */
  lemma {:induction false} SsnReportIsGreatest(cs: seq<ChunkPayloadData>, base: map<u16, u16>)
    requires WithinSsnWindows(cs, base)
    ensures ReportsGreatest(SsnReport(cs), cs, base)
    ensures forall j :: 0 <= j < |cs| ==>
              var si := cs[j].streamIdentifier;
              si in SsnReport(cs) && !Lt16(SsnReport(cs)[si], cs[j].streamSequenceNumber)
    decreases |cs|
  {
    if cs != [] {
      var p := cs[..|cs| - 1];
      assert WithinSsnWindows(p, base) by {
        forall j | 0 <= j < |p| ensures p[j] == cs[j] { }
      }
      SsnReportIsGreatest(p, base);
      SsnReportIsSound(p);
      var m, sc := SsnReport(p), cs[|cs| - 1].streamIdentifier;
      if sc in m {
        var k :| 0 <= k < |p| && p[k].streamIdentifier == sc && p[k].streamSequenceNumber == m[sc];
        assert cs[k] == p[k];
      }
      GreatestStep(m, p, cs, base);
    }
    SsnReportIsSound(cs);
    var r := SsnReport(cs);
    forall j | 0 <= j < |cs|
      ensures !Lt16(r[cs[j].streamIdentifier], cs[j].streamSequenceNumber)
    {
      var si := cs[j].streamIdentifier;
      var k :| 0 <= k < |cs| && cs[k].streamIdentifier == si && cs[k].streamSequenceNumber == r[si];
      Window16Order(base[si], r[si], cs[j].streamSequenceNumber);
    }
  }

  /** Reporting `c` keeps the other streams' SSNs and moves its own stream's no nearer `base`, to at least `c`'s SSN. */
  lemma ReportSsnFurthest(m: map<u16, u16>, c: ChunkPayloadData, base: u16)
    requires Distance16(base, c.streamSequenceNumber) < HALF_16
    requires c.streamIdentifier in m ==> Distance16(base, m[c.streamIdentifier]) < HALF_16
    ensures var r := ReportSsn(m, c); var sc := c.streamIdentifier;
            sc in r && Distance16(base, c.streamSequenceNumber) <= Distance16(base, r[sc])
            && (sc in m ==> Distance16(base, m[sc]) <= Distance16(base, r[sc]))
            && forall si :: si in m && si != sc ==> r[si] == m[si]
  {
    if c.streamIdentifier in m {
      Window16Order(base, m[c.streamIdentifier], c.streamSequenceNumber);
    }
  }

  lemma GreatestStep(m: map<u16, u16>, p: seq<ChunkPayloadData>, cs: seq<ChunkPayloadData>, base: map<u16, u16>)
    requires cs != [] && p == cs[..|cs| - 1]
    requires WithinSsnWindows(cs, base) && WithinSsnWindows(p, base) && ReportsGreatest(m, p, base)
    requires var sc := cs[|cs| - 1].streamIdentifier; sc in m ==> Distance16(base[sc], m[sc]) < HALF_16
    ensures ReportsGreatest(ReportSsn(m, cs[|cs| - 1]), cs, base)
  {
    var c := cs[|cs| - 1];
    var r := ReportSsn(m, c);
    var sc := c.streamIdentifier;
    ReportSsnFurthest(m, c, base[sc]);
    forall j | 0 <= j < |cs|
      ensures cs[j].streamIdentifier in r
      ensures Distance16(base[cs[j].streamIdentifier], cs[j].streamSequenceNumber)
              <= Distance16(base[cs[j].streamIdentifier], r[cs[j].streamIdentifier])
    {
      if j < |p| {
        assert cs[j] == p[j];
      }
    }
  }

  /** `streams` lists the entries of `m`, each stream once. */
  ghost predicate ListsEntries(streams: seq<ForwardTsnStream>, m: map<u16, u16>) {
    (forall j :: 0 <= j < |streams| ==> streams[j].identifier in m && streams[j].sequence == m[streams[j].identifier])
    && (forall si :: si in m ==> exists j :: 0 <= j < |streams| && streams[j].identifier == si)
    && (forall i, j :: 0 <= i < j < |streams| ==> streams[i].identifier != streams[j].identifier)
  }
}
