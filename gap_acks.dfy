/**
 * Gap Ack Blocks of a selective acknowledgement (section 3.3.4 of RFC 4960):
 * runs of consecutive offsets from the cumulative TSN, and the offsets the
 * payload queue computes for its keys.
 */
module GapAcks {
  import opened Serial
  import opened Chunks

  /** The offset the source computes for one TSN: a plain subtraction truncated to 16 bits, 0 below the cumulative TSN. */
  function AsWrittenOffset(tsn: u32, cumulativeTsn: u32): u16 {
    if tsn >= cumulativeTsn then (tsn - cumulativeTsn) % 0x1_0000 else 0
  }

  function AsWrittenOffsets(s: seq<u32>, cumulativeTsn: u32): seq<u16> {
    seq(|s|, i requires 0 <= i < |s| => AsWrittenOffset(s[i], cumulativeTsn))
  }

  /** Offsets as the serial distance from the cumulative TSN, truncated to 16 bits. */
  function WrappingOffsets(s: seq<u32>, cumulativeTsn: u32): seq<u16> {
    seq(|s|, i requires 0 <= i < |s| => Distance(cumulativeTsn, s[i]) % 0x1_0000)
  }

  /** The serial distances of the keys from `base`. */
  function Distances(s: seq<u32>, base: u32): seq<int> {
    seq(|s|, i requires 0 <= i < |s| => Distance(base, s[i]))
  }

  /** Adds one offset to the blocks built so far: it extends the last block or opens a new one. */
  function ExtendBlocks(bs: seq<GapAckBlock>, x: u16): (r: seq<GapAckBlock>)
    ensures r != [] && r[|r| - 1].end == x
  {
    if bs != [] && (bs[|bs| - 1].end + 1) % 0x1_0000 == x then
      bs[..|bs| - 1] + [bs[|bs| - 1].(end := x)]
    else
      bs + [GapAckBlock(x, x)]
  }

  /** The blocks for a sequence of offsets, built offset by offset from the left. */
  function GapBlocks(d: seq<u16>): (r: seq<GapAckBlock>)
    ensures d != [] ==> r != [] && r[|r| - 1].end == d[|d| - 1]
  {
    if d == [] then [] else ExtendBlocks(GapBlocks(d[..|d| - 1]), d[|d| - 1])
  }

  /** The offsets a block stands for: `start` through `end`. */
  function BlockRange(b: GapAckBlock): seq<int> {
    if b.start <= b.end then seq(b.end - b.start + 1, k => b.start + k) else []
  }

  function Expanded(bs: seq<GapAckBlock>): seq<int> {
    if bs == [] then [] else Expanded(bs[..|bs| - 1]) + BlockRange(bs[|bs| - 1])
  }

  predicate StrictlyIncreasing(d: seq<u16>) {
    forall i, j :: 0 <= i < j < |d| ==> d[i] < d[j]
  }

  lemma GapBlocksEmpty(d: seq<u16>)
    ensures GapBlocks(d) == [] <==> d == []
  {
  }

  /** Blocks in order, each with start <= end, with a gap between neighbours. */
  predicate Separated(bs: seq<GapAckBlock>) {
    (forall i :: 0 <= i < |bs| ==> bs[i].start <= bs[i].end)
    && (forall i :: 0 < i < |bs| ==> bs[i - 1].end + 1 < bs[i].start)
  }

  lemma ExpandedSnoc(bs: seq<GapAckBlock>, b: GapAckBlock)
    ensures Expanded(bs + [b]) == Expanded(bs) + BlockRange(b)
  {
    assert (bs + [b])[..|bs|] == bs;
  }

  lemma ExtendLastBlock(bs: seq<GapAckBlock>, x: u16)
    requires bs != [] && Separated(bs) && bs[|bs| - 1].end + 1 == x
    ensures var r := bs[..|bs| - 1] + [bs[|bs| - 1].(end := x)];
      Separated(r) && Expanded(r) == Expanded(bs) + [x]
  {
    var init := bs[..|bs| - 1];
    var last := bs[|bs| - 1];
    assert bs == init + [last];
    ExpandedSnoc(init, last);
    ExpandedSnoc(init, last.(end := x));
    assert BlockRange(last.(end := x)) == BlockRange(last) + [x];
  }

  lemma OpenNewBlock(bs: seq<GapAckBlock>, x: u16)
    requires Separated(bs) && (bs != [] ==> bs[|bs| - 1].end + 1 < x)
    ensures Separated(bs + [GapAckBlock(x, x)]) && Expanded(bs + [GapAckBlock(x, x)]) == Expanded(bs) + [x]
  {
    NewBlockSeparated(bs, x);
    ExpandedSnoc(bs, GapAckBlock(x, x));
    SingleBlockRange(x);
  }

  lemma NewBlockSeparated(bs: seq<GapAckBlock>, x: u16)
    requires Separated(bs) && (bs != [] ==> bs[|bs| - 1].end + 1 < x)
    ensures Separated(bs + [GapAckBlock(x, x)])
  {
    var r := bs + [GapAckBlock(x, x)];
    assert forall i :: 0 <= i < |bs| ==> r[i] == bs[i];
  }

  lemma SingleBlockRange(x: u16)
    ensures BlockRange(GapAckBlock(x, x)) == [x]
  {
  }

  /**
   * For strictly increasing offsets the blocks are the maximal runs of
   * consecutive offsets, in order: each has start <= end, together they
   * list the offsets exactly, and a gap separates neighbouring blocks.
   */
  lemma {:induction false} GapBlocksAreMaximalRuns(d: seq<u16>)
    requires StrictlyIncreasing(d)
    ensures Separated(GapBlocks(d)) && Expanded(GapBlocks(d)) == d
  {
    if d != [] {
      IncreasingPrefix(d);
      GapBlocksAreMaximalRuns(d[..|d| - 1]);
      MaximalRunsStep(d);
    }
  }

  /** Adding an offset above all others to offsets whose blocks are maximal runs keeps them maximal runs. */
  lemma MaximalRunsStep(d: seq<u16>)
    requires d != []
    requires var p := d[..|d| - 1]; Separated(GapBlocks(p)) && Expanded(GapBlocks(p)) == p
    requires var p := d[..|d| - 1]; p != [] ==> p[|p| - 1] < d[|d| - 1]
    ensures Separated(GapBlocks(d)) && Expanded(GapBlocks(d)) == d
  {
    var p := d[..|d| - 1];
    var x := d[|d| - 1];
    assert Separated(GapBlocks(d)) && Expanded(GapBlocks(d)) == Expanded(GapBlocks(p)) + [x] by {
      LastBlockBelow(p, x);
      ExtendBlocksStep(GapBlocks(p), x);
      GapBlocksSnoc(d);
    }
    SnocSplit(d);
  }

  lemma SnocSplit<T>(d: seq<T>)
    requires d != []
    ensures d == d[..|d| - 1] + [d[|d| - 1]]
  {
  }

  /** The blocks of offsets all below `x` end below `x`. */
  lemma LastBlockBelow(p: seq<u16>, x: u16)
    requires p != [] ==> p[|p| - 1] < x
    ensures var bs := GapBlocks(p); bs != [] ==> bs[|bs| - 1].end < x
  {
  }

  lemma GapBlocksSnoc(d: seq<u16>)
    requires d != []
    ensures GapBlocks(d) == ExtendBlocks(GapBlocks(d[..|d| - 1]), d[|d| - 1])
  {
  }

  /** Dropping the last offset keeps the offsets increasing, all below the dropped one. */
  lemma IncreasingPrefix(d: seq<u16>)
    requires d != [] && StrictlyIncreasing(d)
    ensures StrictlyIncreasing(d[..|d| - 1])
    ensures var p := d[..|d| - 1]; p != [] ==> p[|p| - 1] < d[|d| - 1]
  {
    var p := d[..|d| - 1];
    forall i, j | 0 <= i < j < |p| ensures p[i] < p[j] {
      assert p[i] == d[i] && p[j] == d[j];
    }
  }

  /** One step of `GapBlocks` on an offset above every block so far. */
  lemma ExtendBlocksStep(bs: seq<GapAckBlock>, x: u16)
    requires Separated(bs) && (bs != [] ==> bs[|bs| - 1].end < x)
    ensures var r := ExtendBlocks(bs, x);
      Separated(r) && Expanded(r) == Expanded(bs) + [x] && r != [] && r[|r| - 1].end == x
  {
    if bs == [] {
      OpenNewBlock(bs, x);
    } else {
      var e := bs[|bs| - 1].end;
      assert (e + 1) % 0x1_0000 == e + 1;
      if e + 1 == x {
        assert ExtendBlocks(bs, x) == bs[..|bs| - 1] + [bs[|bs| - 1].(end := x)];
        ExtendLastBlock(bs, x);
      } else {
        assert ExtendBlocks(bs, x) == bs + [GapAckBlock(x, x)];
        OpenNewBlock(bs, x);
      }
    }
  }

  /** Ordered keys ahead of the cumulative TSN and within 2^16 of it give strictly increasing offsets. */
  lemma OrderedWindowGivesIncreasingOffsets(s: seq<u32>, cumulativeTsn: u32)
    requires SerialSorted(s) && AheadOf(s, cumulativeTsn)
    requires forall i :: 0 <= i < |s| ==> Distance(cumulativeTsn, s[i]) < TWO_16
    ensures StrictlyIncreasing(WrappingOffsets(s, cumulativeTsn))
    ensures WrappingOffsets(s, cumulativeTsn) == Distances(s, cumulativeTsn)
  {
    var w := WrappingOffsets(s, cumulativeTsn);
    forall i | 0 <= i < |s| ensures w[i] == Distance(cumulativeTsn, s[i]) {
      SmallDistanceOffset(cumulativeTsn, s[i]);
    }
    forall i, j | 0 <= i < j < |s| ensures w[i] < w[j] {
      assert Lt32(s[i], s[j]);
      WindowOrder(cumulativeTsn, s[i], s[j]);
    }
  }

  lemma SmallDistanceOffset(base: u32, t: u32)
    requires Distance(base, t) < TWO_16
    ensures Distance(base, t) % 0x1_0000 == Distance(base, t)
  {
  }

  lemma WrappingBlocksListDistances(s: seq<u32>, cumulativeTsn: u32)
    ensures GapBlocks(WrappingOffsets(s, cumulativeTsn)) == [] <==> s == []
    ensures SerialSorted(s) && AheadOf(s, cumulativeTsn)
            && (forall i :: 0 <= i < |s| ==> Distance(cumulativeTsn, s[i]) < TWO_16) ==>
              Expanded(GapBlocks(WrappingOffsets(s, cumulativeTsn))) == Distances(s, cumulativeTsn)
  {
    var d := WrappingOffsets(s, cumulativeTsn);
    GapBlocksEmpty(d);
    if SerialSorted(s) && AheadOf(s, cumulativeTsn)
       && (forall i :: 0 <= i < |s| ==> Distance(cumulativeTsn, s[i]) < TWO_16)
    {
      OrderedWindowGivesIncreasingOffsets(s, cumulativeTsn);
      GapBlocksAreMaximalRuns(d);
    }
  }

  /** Without wrap-around the source's offsets are the serial distances. */
  lemma AsWrittenAgreesWithoutWrap(s: seq<u32>, cumulativeTsn: u32)
    requires forall i :: 0 <= i < |s| ==> s[i] >= cumulativeTsn
    ensures AsWrittenOffsets(s, cumulativeTsn) == WrappingOffsets(s, cumulativeTsn)
  {
  }

  /**
   * Across the wrap of the TSN space the source's offset is 0: with
   * cumulative TSN 2^32-1 and TSN 1 queued (2 ahead of it, TSN 0 missing)
   * the source reports the block 0-0 where 2-2 is meant.
   */
  lemma GapOffsetAcrossWrap()
    ensures GapBlocks(AsWrittenOffsets([1], U32_MAX)) == [GapAckBlock(0, 0)]
    ensures GapBlocks(WrappingOffsets([1], U32_MAX)) == [GapAckBlock(2, 2)]
  {
    assert AsWrittenOffsets([1], U32_MAX) == [0];
    assert WrappingOffsets([1], U32_MAX) == [2];
    assert [0][..0] == [] && [2][..0] == [];
  }
}
