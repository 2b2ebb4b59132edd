/**
 * Fixed-width unsigned integers and the serial-number arithmetic of
 * section 3.2 of RFC 1982 that SCTP uses to compare TSNs and stream
 * sequence numbers (the `sna32*` and `sna16*` helpers of the crate).
 */
module Serial {

  const TWO_16: int := 0x1_0000
  const TWO_32: int := 0x1_0000_0000
  const HALF_16: int := 0x8000
  const HALF_32: int := 0x8000_0000

  type byte = x: int | 0 <= x < 0x100
  type u16 = x: int | 0 <= x < 0x1_0000
  type u32 = x: int | 0 <= x < 0x1_0000_0000

  const U32_MAX: u32 := 0xFFFF_FFFF

  /** `a.wrapping_add(n)` on u32: what `+` does in a release build. */
  function Add32(a: u32, n: nat): u32 { (a + n) % 0x1_0000_0000 }

  /** Two wrapping additions are one. */
  lemma AddAdd(a: u32, m: nat, n: nat)
    ensures Add32(Add32(a, m), n) == Add32(a, m + n)
  {
    var q := (a + m) / 0x1_0000_0000;
    assert a + m == q * 0x1_0000_0000 + Add32(a, m);
    assert Add32(a, m) + n == (a + m + n) - q * 0x1_0000_0000;
    ModAfterShift(a + m + n, q);
  }

  lemma ModAfterShift(x: int, q: int)
    ensures (x - q * 0x1_0000_0000) % 0x1_0000_0000 == x % 0x1_0000_0000
  {
  }

  /** `a.wrapping_sub(b)` on u32. */
  function Sub32(a: u32, b: u32): u32 { (a - b) % 0x1_0000_0000 }

  /** How far `to` lies ahead of `from` on the 32-bit circle. */
  function Distance(from: u32, to: u32): (d: nat)
    ensures d < TWO_32
    ensures d == 0 <==> from == to
  {
    (to - from) % 0x1_0000_0000
  }

  /** `sna32lt`: `a` precedes `b` in serial-number order. */
  predicate Lt32(a: u32, b: u32) {
    (a < b && b - a < HALF_32) || (a > b && a - b > HALF_32)
  }

  predicate Lte32(a: u32, b: u32) { a == b || Lt32(a, b) }

  /** `sna32gt`: `a` follows `b` in serial-number order. */
  predicate Gt32(a: u32, b: u32) {
    (a < b && b - a > HALF_32) || (a > b && a - b < HALF_32)
  }

  predicate Gte32(a: u32, b: u32) { a == b || Gt32(a, b) }

  /** `sna16lt` on stream sequence numbers. */
  predicate Lt16(a: u16, b: u16) {
    (a < b && b - a < HALF_16) || (a > b && a - b > HALF_16)
  }

  /** How far `to` lies ahead of `from` on the 16-bit circle of stream sequence numbers. */
  function Distance16(from: u16, to: u16): (d: nat)
    ensures d < TWO_16
    ensures d == 0 <==> from == to
  {
    if from <= to then to - from else TWO_16 + to - from
  }

  /** Within the half circle from `base` on, `sna16lt` is the order of distances from `base`. */
  lemma Window16Order(base: u16, a: u16, b: u16)
    requires Distance16(base, a) < HALF_16 && Distance16(base, b) < HALF_16
    ensures Lt16(a, b) <==> Distance16(base, a) < Distance16(base, b)
  {
  }

  /** Serial order is the order of a forward distance below half the circle. */
  lemma LtIsShortForwardDistance(a: u32, b: u32)
    ensures Lt32(a, b) <==> 0 < Distance(a, b) < HALF_32
  {
  }

  lemma DistanceOfAdd(a: u32, n: nat)
    requires n < TWO_32
    ensures Distance(a, Add32(a, n)) == n
  {
  }

  lemma AddOfDistance(a: u32, b: u32)
    ensures Add32(a, Distance(a, b)) == b
  {
  }

  /** Walking one step further from `base` adds one to the distance, short of a full turn. */
  lemma DistanceStep(base: u32, x: u32)
    requires Distance(base, x) < TWO_32 - 1
    ensures Distance(base, Add32(x, 1)) == Distance(base, x) + 1
  {
  }

  /** Distances from a later base are shorter by the distance between the bases. */
  lemma DistanceRebase(base: u32, mid: u32, x: u32)
    requires Distance(base, mid) <= Distance(base, x)
    ensures Distance(mid, x) == Distance(base, x) - Distance(base, mid)
  {
  }

  /**
   * Within the half circle ahead of `base` serial order is the order of
   * distances from `base`, so it is a strict total order there.
   */
  lemma WindowOrder(base: u32, a: u32, b: u32)
    requires 0 < Distance(base, a) < HALF_32 && 0 < Distance(base, b) < HALF_32
    ensures Lt32(a, b) <==> Distance(base, a) < Distance(base, b)
  {
  }

  /** The successor of a TSN follows it. */
  lemma SuccessorFollows(a: u32)
    ensures Lt32(a, Add32(a, 1))
  {
  }

  /** Stepping one TSN at a time `n` times from `a` lands on a + n. */
  lemma AddStep(a: u32, n: nat)
    ensures Add32(Add32(a, n), 1) == Add32(a, n + 1)
  {
  }

  /** A wrapping u32 sum of truncated counts is the truncated exact sum. */
  lemma AddTruncated(a: u32, x: nat, y: nat)
    requires a == x % 0x1_0000_0000
    ensures Add32(a, y % 0x1_0000_0000) == (x + y) % 0x1_0000_0000
  {
  }

  /** `sna32lt` is not transitive on the whole circle: three TSNs a third of it apart form a cycle. */
  lemma LtNotTransitive()
    ensures Lt32(0, 0x5555_5556) && Lt32(0x5555_5556, 0xAAAA_AAAC) && Lt32(0xAAAA_AAAC, 0)
  {
  }

  /** The TSNs of `s` are in strictly increasing serial order. */
  predicate SerialSorted(s: seq<u32>) {
    forall i, j :: 0 <= i < j < |s| ==> Lt32(s[i], s[j])
  }

  /** Every TSN of `s` lies in the half circle ahead of `base`, where serial order is total. */
  predicate AheadOf(s: seq<u32>, base: u32) {
    forall i :: 0 <= i < |s| ==> 0 < Distance(base, s[i]) < HALF_32
  }
}
