/**
 * The queue of DATA chunks keyed by TSN that an association keeps twice:
 * once for chunks received but not yet delivered in order (the payload
 * queue) and once for chunks sent but not yet acknowledged (the in-flight
 * queue).
 */
module PayloadQueues {
  import opened Serial
  import opened Errors
  import opened Chunks
  import opened GapAcks

  predicate NoDuplicates(s: seq<u32>) {
    forall i, j :: 0 <= i < j < |s| ==> s[i] != s[j]
  }

  /** Total user-data length of the chunks stored under the keys listed in `keys`. */
  function BytesOf(keys: seq<u32>, m: map<u32, ChunkPayloadData>): nat {
    if keys == [] then 0
    else (if keys[0] in m then |m[keys[0]].userData| else 0) + BytesOf(keys[1..], m)
  }

  /** `s` with `x` inserted before position `at`. */
  function Inserted(s: seq<u32>, x: u32, at: nat): seq<u32>
    requires at <= |s|
  {
    s[..at] + [x] + s[at..]
  }

  /**
   * Position `at` is where sorting puts a key `x` appended to the sorted
   * keys `s`: `x` precedes every key from `at` on and does not precede the
   * key just before `at`.
   */
  predicate PlacedAt(s: seq<u32>, x: u32, at: nat) {
    at <= |s|
    && (forall k :: at <= k < |s| ==> Lt32(x, s[k]))
    && (at == 0 || !Lt32(x, s[at - 1]))
  }

  lemma {:induction false} BytesOfAppend(a: seq<u32>, b: seq<u32>, m: map<u32, ChunkPayloadData>)
    ensures BytesOf(a + b, m) == BytesOf(a, m) + BytesOf(b, m)
  {
    if a != [] {
      assert (a + b)[1..] == a[1..] + b;
      BytesOfAppend(a[1..], b, m);
    } else {
      assert a + b == b;
    }
  }

  /** Only the lengths stored under the listed keys matter. */
  lemma {:induction false} BytesOfSameLengths(keys: seq<u32>, m1: map<u32, ChunkPayloadData>, m2: map<u32, ChunkPayloadData>)
    requires forall k :: k in keys ==> (k in m1 <==> k in m2)
    requires forall k :: k in keys && k in m1 ==> |m1[k].userData| == |m2[k].userData|
    ensures BytesOf(keys, m1) == BytesOf(keys, m2)
  {
    if keys != [] {
      BytesOfSameLengths(keys[1..], m1, m2);
    }
  }

  /** Replacing the chunk stored under a listed key changes the total by the difference in lengths. */
  lemma {:induction false} BytesOfUpdate(keys: seq<u32>, m: map<u32, ChunkPayloadData>, k: u32, c: ChunkPayloadData)
    requires NoDuplicates(keys) && k in keys && k in m
    ensures BytesOf(keys, m[k := c]) + |m[k].userData| == BytesOf(keys, m) + |c.userData|
  {
    if keys[0] == k {
      assert k !in keys[1..] by {
        forall j | 0 <= j < |keys[1..]| ensures keys[1..][j] != k {
          assert keys[1..][j] == keys[j + 1];
        }
      }
      BytesOfSameLengths(keys[1..], m[k := c], m);
    } else {
      assert k in keys[1..] by {
        var j :| 0 <= j < |keys| && keys[j] == k;
        assert keys[1..][j - 1] == k;
      }
      BytesOfUpdate(keys[1..], m, k, c);
    }
  }

  function Elements(s: seq<u32>): set<u32> {
    set x | x in s
  }

  /** A duplicate-free key list has as many members as entries. */
  lemma {:induction false} NoDuplicatesCardinality(s: seq<u32>)
    requires NoDuplicates(s)
    ensures |Elements(s)| == |s|
  {
    if s != [] {
      var t := s[1..];
      assert NoDuplicates(t) by {
        forall i, j | 0 <= i < j < |t| ensures t[i] != t[j] {
          assert t[i] == s[i + 1] && t[j] == s[j + 1];
        }
      }
      NoDuplicatesCardinality(t);
      assert s[0] !in Elements(t) by {
        forall j | 0 <= j < |t| ensures t[j] != s[0] { assert t[j] == s[j + 1]; }
      }
      assert Elements(s) == Elements(t) + {s[0]} by {
        assert s == [s[0]] + t;
      }
    }
  }

  /**
   * Inserting `x` at the place sorting chooses keeps serially ordered keys
   * ordered, as long as all of them lie in the half circle ahead of `base`.
   */
  lemma PlacementKeepsOrder(s: seq<u32>, x: u32, at: nat, base: u32)
    requires SerialSorted(s) && AheadOf(s, base) && 0 < Distance(base, x) < HALF_32
    requires PlacedAt(s, x, at) && x !in s
    ensures SerialSorted(Inserted(s, x, at))
  {
    var r := Inserted(s, x, at);
    forall i, j | 0 <= i < j < |s| ensures Distance(base, s[i]) < Distance(base, s[j]) {
      WindowOrder(base, s[i], s[j]);
    }
    if at > 0 {
      WindowOrder(base, x, s[at - 1]);
      if Distance(base, x) == Distance(base, s[at - 1]) {
        AddOfDistance(base, x);
        AddOfDistance(base, s[at - 1]);
        assert false;
      }
    }
    if at < |s| {
      WindowOrder(base, x, s[at]);
    }
    assert forall i :: 0 <= i < |r| ==> r[i] == if i < at then s[i] else if i == at then x else s[i - 1];
    forall i, j | 0 <= i < j < |r| ensures Lt32(r[i], r[j]) {
      WindowOrder(base, r[i], r[j]);
    }
  }

  /** Where the entry at position `i` of `Inserted(s, x, at)` sits in `s + [x]`, with `n == |s|`. */
  function Source(i: nat, at: nat, n: nat): nat {
    if i < at then i else if i == at then n else i - 1
  }

  /** Moving the last key to position `at` keeps the keys, their uniqueness and their byte total. */
  lemma InsertedIsRearrangement(s: seq<u32>, x: u32, at: nat, m: map<u32, ChunkPayloadData>)
    requires at <= |s|
    ensures forall k :: k in Inserted(s, x, at) <==> k in s + [x]
    ensures NoDuplicates(s + [x]) ==> NoDuplicates(Inserted(s, x, at))
    ensures BytesOf(Inserted(s, x, at), m) == BytesOf(s + [x], m)
  {
    var r := Inserted(s, x, at);
    var w := s + [x];
    assert s == s[..at] + s[at..];
    assert forall i :: 0 <= i < |r| ==> r[i] == w[Source(i, at, |s|)];
    assert forall i :: 0 <= i < |w| ==> w[i] == if i < at then r[i] else if i == |s| then r[at] else r[i + 1];
    if NoDuplicates(w) {
      forall i, j | 0 <= i < j < |r| ensures r[i] != r[j] {
        assert Source(i, at, |s|) != Source(j, at, |s|);
      }
    }
    BytesOfAppend(s[..at] + [x], s[at..], m);
    BytesOfAppend(s[..at], [x], m);
    BytesOfAppend(s, [x], m);
    BytesOfAppend(s[..at], s[at..], m);
  }

  /** The chunk with `retransmit` raised, unless it is acknowledged or abandoned. */
  function MarkedForRetransmission(c: ChunkPayloadData): ChunkPayloadData {
    if c.acked || c.abandoned then c else c.(retransmit := true)
  }

  /** The chunk as `mark_as_acked` leaves it. */
  function Acknowledged(c: ChunkPayloadData): ChunkPayloadData {
    c.(acked := true, retransmit := false, userData := [])
  }

  class PayloadQueue {
    var chunkMap: map<u32, ChunkPayloadData>
    var sorted: seq<u32>
    var dupTsn: seq<u32>
    var nBytes: nat

    /**
     * `sorted` lists every key of `chunkMap` exactly once, each chunk is
     * stored under its own TSN, and `nBytes` is the total user-data length.
     */
    ghost predicate Valid()
      reads this
    {
      NoDuplicates(sorted)
      && (forall k :: k in sorted <==> k in chunkMap)
      && (forall k :: k in chunkMap ==> chunkMap[k].tsn == k)
      && nBytes == BytesOf(sorted, chunkMap)
    }

    constructor ()
      ensures Valid()
      ensures chunkMap == map[] && sorted == [] && dupTsn == [] && nBytes == 0
    {
      chunkMap := map[];
      sorted := [];
      dupTsn := [];
      nBytes := 0;
    }

    /**
     * Sorts `sorted` after one key was appended: the appended key moves
     * to the position that ordering by `sna32lt` gives it among the keys
     * before it.
     */
    method UpdateSortedKeys() returns (ghost at: nat)
      requires Valid()
      modifies this`sorted
      ensures Valid()
      ensures |old(sorted)| == 0 ==> sorted == old(sorted)
      ensures |old(sorted)| > 0 ==>
                var n := |old(sorted)| - 1;
                PlacedAt(old(sorted)[..n], old(sorted)[n], at)
                && sorted == Inserted(old(sorted)[..n], old(sorted)[n], at)
    {
      at := 0;
      if |sorted| > 0 {
        var n := |sorted| - 1;
        var x := sorted[n];
        var s := sorted[..n];
        assert sorted == s + [x];
        var j := InsertionPoint(s, x);
        InsertedIsRearrangement(s, x, j, chunkMap);
        sorted := s[..j] + [x] + s[j..];
        at := j;
      }
    }

    /** The loop of `update_sorted_keys`: walks back from the end of `s` past the keys `x` precedes. */
    static method InsertionPoint(s: seq<u32>, x: u32) returns (j: nat)
      ensures PlacedAt(s, x, j)
    {
      j := |s|;
      while j > 0 && Lt32(x, s[j - 1])
        invariant 0 <= j <= |s|
        invariant forall k :: j <= k < |s| ==> Lt32(x, s[k])
      {
        j := j - 1;
      }
    }

    /** `can_push`: the chunk is new and lies ahead of the cumulative TSN, up to half the circle. */
    function CanPush(p: ChunkPayloadData, cumulativeTsn: u32): (r: bool)
      reads this
      ensures r <==> p.tsn !in chunkMap && 0 < Distance(cumulativeTsn, p.tsn) <= HALF_32
    {
      LtIsShortForwardDistance(p.tsn, cumulativeTsn);
      !(p.tsn in chunkMap || Lte32(p.tsn, cumulativeTsn))
    }

    /** Stores a chunk whose TSN is not yet queued (the caller guarantees it). */
    method PushNoCheck(p: ChunkPayloadData) returns (ghost at: nat)
      requires Valid() && p.tsn !in chunkMap
      modifies this`sorted, this`chunkMap, this`nBytes
      ensures Valid()
      ensures chunkMap == old(chunkMap)[p.tsn := p] && nBytes == old(nBytes) + |p.userData|
      ensures PlacedAt(old(sorted), p.tsn, at) && sorted == Inserted(old(sorted), p.tsn, at)
    {
      nBytes := nBytes + |p.userData|;
      ghost var s := sorted;
      sorted := sorted + [p.tsn];
      chunkMap := chunkMap[p.tsn := p];
      assert p.tsn !in s;
      BytesOfAppend(s, [p.tsn], chunkMap);
      BytesOfSameLengths(s, chunkMap, old(chunkMap));
      assert NoDuplicates(sorted);
      at := UpdateSortedKeys();
      assert sorted == Inserted(s, p.tsn, at) by {
        assert (s + [p.tsn])[..|s|] == s;
      }
    }

    /**
     * `push`: stores the chunk and returns true when `CanPush` allows it;
     * otherwise records its TSN as a duplicate and returns false.
     */
    method Push(p: ChunkPayloadData, cumulativeTsn: u32) returns (ok: bool, ghost at: nat)
      requires Valid()
      modifies this`sorted, this`chunkMap, this`nBytes, this`dupTsn
      ensures Valid()
      ensures ok == old(CanPush(p, cumulativeTsn))
      ensures !ok ==> chunkMap == old(chunkMap) && sorted == old(sorted) && nBytes == old(nBytes)
                      && dupTsn == old(dupTsn) + [p.tsn]
      ensures ok ==> chunkMap == old(chunkMap)[p.tsn := p] && nBytes == old(nBytes) + |p.userData|
                     && dupTsn == old(dupTsn)
                     && PlacedAt(old(sorted), p.tsn, at) && sorted == Inserted(old(sorted), p.tsn, at)
      ensures ok && SerialSorted(old(sorted)) && AheadOf(old(sorted), cumulativeTsn) ==> SerialSorted(sorted)
    {
      at := 0;
      ghost var can := CanPush(p, cumulativeTsn);
      if p.tsn in chunkMap || Lte32(p.tsn, cumulativeTsn) {
        dupTsn := dupTsn + [p.tsn];
        return false, at;
      }
      assert can;
      ghost var s := sorted;
      at := PushNoCheck(p);
      ok := true;
      if SerialSorted(s) && AheadOf(s, cumulativeTsn) {
        AcceptedPlacementKeepsOrder(s, p.tsn, at, cumulativeTsn);
      }
    }

    /** `pop`: removes the chunk only when it is the first in sorted order. */
    method Pop(tsn: u32) returns (r: Option<ChunkPayloadData>)
      requires Valid()
      modifies this`sorted, this`chunkMap, this`nBytes
      ensures Valid()
      ensures r.Some? <==> old(|sorted| > 0 && sorted[0] == tsn)
      ensures r.Some? ==> r.value == old(chunkMap)[tsn] && sorted == old(sorted)[1..]
                          && chunkMap == old(chunkMap) - {tsn}
                          && nBytes == old(nBytes) - |r.value.userData|
      ensures r.None? ==> sorted == old(sorted) && chunkMap == old(chunkMap) && nBytes == old(nBytes)
    {
      if |sorted| > 0 && tsn == sorted[0] {
        ghost var s := sorted;
        assert tsn in s;
        sorted := sorted[1..];
        var c := chunkMap[tsn];
        chunkMap := chunkMap - {tsn};
        assert tsn !in sorted by {
          forall j | 0 <= j < |sorted| ensures sorted[j] != tsn { assert sorted[j] == s[j + 1]; }
        }
        assert forall k :: k in s <==> k == tsn || k in sorted by {
          assert s == [tsn] + sorted;
        }
        BytesOfSameLengths(sorted, chunkMap, old(chunkMap));
        nBytes := nBytes - |c.userData|;
        assert NoDuplicates(sorted) by {
          forall i, j | 0 <= i < j < |sorted| ensures sorted[i] != sorted[j] {
            assert sorted[i] == s[i + 1] && sorted[j] == s[j + 1];
          }
        }
        return Some(c);
      }
      return None;
    }

    /** `get`: the chunk stored under a TSN, if any. */
    function Get(tsn: u32): (r: Option<ChunkPayloadData>)
      reads this
      requires Valid()
      ensures r.Some? <==> tsn in chunkMap
      ensures r.Some? ==> r.value.tsn == tsn && r.value == chunkMap[tsn]
    {
      if tsn in chunkMap then Some(chunkMap[tsn]) else None
    }

    /**
     * A write through `get_mut`: the association only changes a chunk's
     * flags and counters that way, never its TSN or its user data.
     */
    method SetChunk(tsn: u32, c: ChunkPayloadData)
      requires Valid() && tsn in chunkMap && c.tsn == tsn
      requires |c.userData| == |chunkMap[tsn].userData|
      modifies this`chunkMap
      ensures Valid()
      ensures chunkMap == old(chunkMap)[tsn := c]
    {
      chunkMap := chunkMap[tsn := c];
      BytesOfSameLengths(sorted, chunkMap, old(chunkMap));
    }

    /** `pop_duplicates`: hands over the TSNs recorded as duplicates and forgets them. */
    method PopDuplicates() returns (dups: seq<u32>)
      modifies this`dupTsn
      ensures dups == old(dupTsn) && dupTsn == []
    {
      dups := dupTsn;
      dupTsn := [];
    }

    /** The map is empty exactly when no key is listed. */
    lemma EmptyExactlyWhenNoKeys()
      requires Valid()
      ensures chunkMap == map[] <==> sorted == []
    {
      if sorted != [] {
        assert sorted[0] in chunkMap;
      }
    }

    /**
     * `get_gap_ack_blocks`: the runs of consecutive offsets of the queued
     * TSNs from `cumulativeTsn`, as the source computes the offsets.
     */
    method GetGapAckBlocks(cumulativeTsn: u32) returns (blocks: seq<GapAckBlock>)
      requires Valid()
      ensures blocks == GapBlocks(AsWrittenOffsets(sorted, cumulativeTsn))
    {
      EmptyExactlyWhenNoKeys();
      if chunkMap == map[] {
        blocks := [];
      } else {
        var d := AsWrittenOffsets(sorted, cumulativeTsn);
        var b := GapAckBlock(0, 0);
        var gapAckBlocks: seq<GapAckBlock> := [];
        var i := 0;
        while i < |sorted|
          invariant 0 <= i <= |sorted|
          invariant i == 0 ==> gapAckBlocks == []
          invariant i > 0 ==> gapAckBlocks + [b] == GapBlocks(d[..i])
        {
          var diff: u16 := if sorted[i] >= cumulativeTsn then (sorted[i] - cumulativeTsn) % 0x1_0000 else 0;
          assert diff == d[i];
          gapAckBlocks, b := NextGapAckBlock(gapAckBlocks, b, diff, i == 0, d, i);
          i := i + 1;
        }
        assert d[..|sorted|] == d;
        blocks := gapAckBlocks + [b];
      }
    }

    /** One offset of the loop of `get_gap_ack_blocks`: it grows the open block when it follows on, else opens a new one. */
    static method NextGapAckBlock(closed: seq<GapAckBlock>, b: GapAckBlock, diff: u16, first: bool, ghost d: seq<u16>, ghost i: nat)
      returns (closed': seq<GapAckBlock>, b': GapAckBlock)
      requires i < |d| && d[i] == diff && (first <==> i == 0)
      requires i == 0 ==> closed == []
      requires i > 0 ==> closed + [b] == GapBlocks(d[..i])
      ensures closed' + [b'] == GapBlocks(d[..i + 1])
    {
      GapBlocksPrefixStep(d, i);
      closed' := closed;
      if first {
        b' := GapAckBlock(diff, diff);
      } else if (b.end + 1) % 0x1_0000 == diff {
        ExtendOpenBlock(closed, b, diff);
        b' := b.(end := (b.end + 1) % 0x1_0000);
      } else {
        ExtendOpenBlock(closed, b, diff);
        closed' := closed + [b];
        b' := GapAckBlock(diff, diff);
      }
    }

    /**
     * The Gap Ack Blocks with offsets taken modulo 2^32, as section 3.3.4
     * of RFC 4960 defines them: for ordered keys ahead of `cumulativeTsn`
     * and within 2^16 of it, the blocks list exactly their distances.
     */
    function CorrectedGapAckBlocks(cumulativeTsn: u32): (blocks: seq<GapAckBlock>)
      reads this
      requires Valid()
      ensures blocks == [] <==> sorted == []
      ensures SerialSorted(sorted) && AheadOf(sorted, cumulativeTsn)
              && (forall i :: 0 <= i < |sorted| ==> Distance(cumulativeTsn, sorted[i]) < TWO_16) ==>
                Expanded(blocks) == Distances(sorted, cumulativeTsn)
    {
      WrappingBlocksListDistances(sorted, cumulativeTsn);
      GapBlocks(WrappingOffsets(sorted, cumulativeTsn))
    }

    /** `mark_as_acked`: acknowledges a chunk, drops its user data, and returns how many bytes that freed. */
    method MarkAsAcked(tsn: u32) returns (n: nat)
      requires Valid()
      modifies this`chunkMap, this`nBytes
      ensures Valid()
      ensures tsn in old(chunkMap) ==>
                n == |old(chunkMap)[tsn].userData|
                && chunkMap == old(chunkMap)[tsn := Acknowledged(old(chunkMap)[tsn])]
                && nBytes == old(nBytes) - n
      ensures tsn !in old(chunkMap) ==> n == 0 && chunkMap == old(chunkMap) && nBytes == old(nBytes)
    {
      if tsn in chunkMap {
        var c := chunkMap[tsn];
        n := |c.userData|;
        BytesOfUpdate(sorted, chunkMap, tsn, Acknowledged(c));
        chunkMap := chunkMap[tsn := Acknowledged(c)];
        nBytes := nBytes - n;
      } else {
        n := 0;
      }
    }

    /** `get_last_tsn_received`: the last key in sorted order, which is the newest when the keys are ordered. */
    function GetLastTsnReceived(): (r: Option<u32>)
      reads this
      requires Valid()
      ensures r.None? <==> chunkMap == map[]
      ensures r.Some? ==> r.value in chunkMap
      ensures r.Some? && SerialSorted(sorted) ==> forall k :: k in chunkMap && k != r.value ==> Lt32(k, r.value)
    {
      if sorted == [] then
        assert forall k :: k !in chunkMap;
        None
      else
        var last := sorted[|sorted| - 1];
        assert forall k :: k in chunkMap ==> exists i :: 0 <= i < |sorted| && sorted[i] == k;
        Some(last)
    }

    /** `mark_all_to_retrasmit`: every chunk neither acknowledged nor abandoned is marked for retransmission. */
    method MarkAllToRetransmit()
      requires Valid()
      modifies this`chunkMap
      ensures Valid()
      ensures chunkMap.Keys == old(chunkMap).Keys
      ensures forall k :: k in chunkMap ==> chunkMap[k] == MarkedForRetransmission(old(chunkMap)[k])
    {
      var todo := chunkMap.Keys;
      while todo != {}
        invariant todo <= chunkMap.Keys && chunkMap.Keys == old(chunkMap).Keys
        invariant forall k :: k in chunkMap ==>
          chunkMap[k] == if k in todo then old(chunkMap)[k] else MarkedForRetransmission(old(chunkMap)[k])
        decreases todo
      {
        var k :| k in todo;
        chunkMap := chunkMap[k := MarkedForRetransmission(chunkMap[k])];
        todo := todo - {k};
      }
      BytesOfSameLengths(sorted, chunkMap, old(chunkMap));
    }

    /** `get_num_bytes`: the total user-data length of the queued chunks. */
    function GetNumBytes(): (n: nat)
      reads this
      requires Valid()
      ensures n == BytesOf(sorted, chunkMap)
    {
      nBytes
    }

    /** `len`: the number of queued chunks, which is the length of `sorted`. */
    function Len(): (n: nat)
      reads this
      requires Valid()
      ensures n == |sorted|
    {
      NoDuplicatesCardinality(sorted);
      assert chunkMap.Keys == Elements(sorted);
      |chunkMap|
    }

    function IsEmpty(): (r: bool)
      reads this
      requires Valid()
      ensures r <==> sorted == []
    {
      Len() == 0
    }
  }

  /** A TSN `push` accepts keeps keys that lie ahead of the cumulative TSN in serial order. */
  lemma AcceptedPlacementKeepsOrder(s: seq<u32>, x: u32, at: nat, cumulativeTsn: u32)
    requires SerialSorted(s) && AheadOf(s, cumulativeTsn) && 0 < Distance(cumulativeTsn, x) <= HALF_32
    requires PlacedAt(s, x, at) && x !in s
    ensures SerialSorted(Inserted(s, x, at))
  {
    if Distance(cumulativeTsn, x) == HALF_32 {
      PlacementAtHalf(s, x, at, cumulativeTsn);
    } else {
      PlacementKeepsOrder(s, x, at, cumulativeTsn);
    }
  }

  /** A key exactly half the circle ahead of `base` is preceded by none of the keys, so sorting appends it. */
  lemma PlacementAtHalf(s: seq<u32>, x: u32, at: nat, base: u32)
    requires SerialSorted(s) && AheadOf(s, base) && Distance(base, x) == HALF_32
    requires PlacedAt(s, x, at) && x !in s
    ensures SerialSorted(Inserted(s, x, at))
  {
    if at < |s| {
      LtIsShortForwardDistance(x, s[at]);
      assert false;
    }
    assert Inserted(s, x, at) == s + [x];
    forall i | 0 <= i < |s| ensures Lt32(s[i], x) {
      LtIsShortForwardDistance(s[i], x);
      LtIsShortForwardDistance(x, s[i]);
    }
  }

  /** The blocks of one more offset extend the blocks of the offsets before it. */
  lemma GapBlocksPrefixStep(d: seq<u16>, i: nat)
    requires i < |d|
    ensures GapBlocks(d[..i + 1]) == ExtendBlocks(GapBlocks(d[..i]), d[i])
  {
    assert d[..i + 1][..i] == d[..i];
  }

  /** Extending blocks whose last block is still open either grows that block or closes it and opens a new one. */
  lemma ExtendOpenBlock(closed: seq<GapAckBlock>, b: GapAckBlock, x: u16)
    ensures (b.end + 1) % 0x1_0000 == x ==> ExtendBlocks(closed + [b], x) == closed + [b.(end := x)]
    ensures (b.end + 1) % 0x1_0000 != x ==> ExtendBlocks(closed + [b], x) == (closed + [b]) + [GapAckBlock(x, x)]
  {
    assert (closed + [b])[..|closed|] == closed;
  }
}
