/**
 * The integer congestion-control and window arithmetic of the association
 * (sections 6.2.1, 7.2.1-7.2.4 of RFC 4960), as pure functions on the
 * 32-bit values the association stores. The association's methods update
 * its fields by these functions; the lemmas state what they guarantee.
 */
module Congestion {
  import opened Serial
  import opened Errors

  /** `COMMON_HEADER_SIZE`: the 12-byte SCTP common header. */
  const COMMON_HEADER_SIZE: nat := 12
  /** `DATA_CHUNK_HEADER_SIZE`: chunk header plus the DATA fields before the user data. */
  const DATA_CHUNK_HEADER_SIZE: nat := 16
  /** The 4380-byte floor of the initial congestion window (section 7.2.1 of RFC 4960). */
  const INITIAL_CWND_FLOOR: nat := 4380

  /** `2 * x` on u32 in a release build. */
  function Double32(x: u32): u32 { (2 * x) % 0x1_0000_0000 }

  /** `4 * x` on u32 in a release build. */
  function Quad32(x: u32): u32 { (4 * x) % 0x1_0000_0000 }

  function Min(a: int, b: int): int { if a <= b then a else b }
  function Max(a: int, b: int): int { if a >= b then a else b }

  /** The path MTU the association derives from the largest DATA payload. */
  function MtuFor(maxPayloadSize: u32): (mtu: u32)
    ensures maxPayloadSize + COMMON_HEADER_SIZE + DATA_CHUNK_HEADER_SIZE < TWO_32 ==>
              mtu == maxPayloadSize + COMMON_HEADER_SIZE + DATA_CHUNK_HEADER_SIZE
  {
    Add32(maxPayloadSize, COMMON_HEADER_SIZE + DATA_CHUNK_HEADER_SIZE)
  }

  /**
   * The initial cwnd as the source computes it, `(2*mtu).clamp(4380, 4*mtu)`:
   * `clamp` panics when its lower bound exceeds its upper bound.
   */
  function InitialCwndAsWritten(mtu: u32): (r: Result<u32>)
    ensures r.Err? <==> Quad32(mtu) < INITIAL_CWND_FLOOR
    ensures r.Ok? ==> INITIAL_CWND_FLOOR <= r.value <= Quad32(mtu)
  {
    if Quad32(mtu) < INITIAL_CWND_FLOOR then Err(Panic)
    else Ok(Min(Max(Double32(mtu), INITIAL_CWND_FLOOR), Quad32(mtu)))
  }

  /** The initial cwnd as section 7.2.1 of RFC 4960 defines it: min(4*MTU, max(2*MTU, 4380)). */
  function InitialCwnd(mtu: u32): u32 {
    Min(Quad32(mtu), Max(Double32(mtu), INITIAL_CWND_FLOOR))
  }

  /**
   * The initial cwnd lies between 2*MTU (or 4380 when that is larger) and
   * 4*MTU, and it equals the source's value whenever the source does not panic.
   */
  lemma InitialCwndBounds(mtu: u32)
    requires mtu < 0x4000_0000
    ensures InitialCwnd(mtu) <= 4 * mtu
    ensures InitialCwnd(mtu) == 4 * mtu || InitialCwnd(mtu) >= 2 * mtu
    ensures 4 * mtu >= INITIAL_CWND_FLOOR ==> InitialCwnd(mtu) >= INITIAL_CWND_FLOOR
    ensures 4 * mtu >= INITIAL_CWND_FLOOR ==> InitialCwndAsWritten(mtu) == Ok(InitialCwnd(mtu))
  {
    assert Quad32(mtu) == 4 * mtu && Double32(mtu) == 2 * mtu;
  }

  /**
   * A DATA payload bound of 972 bytes gives an MTU of 1000, and 4*1000 is
   * below 4380: the source's `clamp` panics where the RFC's formula gives 4000.
   */
  lemma InitialCwndPanicsOnSmallMtu()
    ensures MtuFor(972) == 1000
    ensures InitialCwndAsWritten(MtuFor(972)) == Err(Panic)
    ensures InitialCwnd(MtuFor(972)) == 4000
  {
  }

  /** Slow start: cwnd grows by the bytes acknowledged, at most doubling (wrapping like the source's u32). */
  function SlowStartCwnd(cwnd: u32, acked: u32): u32 {
    Add32(cwnd, Min(acked, cwnd))
  }

  lemma SlowStartGrowth(cwnd: u32, acked: u32)
    requires cwnd + Min(acked, cwnd) < TWO_32
    ensures cwnd <= SlowStartCwnd(cwnd, acked) <= 2 * cwnd
    ensures SlowStartCwnd(cwnd, acked) - cwnd <= acked
    ensures acked <= cwnd ==> SlowStartCwnd(cwnd, acked) == cwnd + acked
  {
  }

  /** The pair (cwnd, partial_bytes_acked) after a SACK in congestion avoidance. */
  datatype Window = Window(cwnd: u32, partialBytesAcked: u32)

  function CongestionAvoidance(w: Window, acked: u32, mtu: u32, pendingNonEmpty: bool): Window {
    var pba := Add32(w.partialBytesAcked, acked);
    if pba >= w.cwnd && pendingNonEmpty then Window(Add32(w.cwnd, mtu), pba - w.cwnd)
    else Window(w.cwnd, pba)
  }

  /**
   * Congestion avoidance adds exactly one MTU to cwnd when the bytes acked
   * so far reach cwnd and data is waiting, taking cwnd off partial_bytes_acked;
   * otherwise cwnd stays and only partial_bytes_acked grows.
   */
  lemma CongestionAvoidanceStep(w: Window, acked: u32, mtu: u32, pendingNonEmpty: bool)
    requires w.partialBytesAcked + acked < TWO_32 && w.cwnd + mtu < TWO_32
    ensures var r := CongestionAvoidance(w, acked, mtu, pendingNonEmpty);
      var pba := w.partialBytesAcked + acked;
      (r.cwnd > w.cwnd <==> (mtu > 0 && pba >= w.cwnd && pendingNonEmpty))
      && (pba >= w.cwnd && pendingNonEmpty ==> r.partialBytesAcked == pba - w.cwnd && r.cwnd == w.cwnd + mtu)
      && (!(pba >= w.cwnd && pendingNonEmpty) ==> r.partialBytesAcked == pba && r.cwnd == w.cwnd)
  {
  }

  /** ssthresh after a loss, by fast retransmit or T3 expiry (section 7.2.3 of RFC 4960): max(cwnd/2, 4*MTU). */
  function LossSsthresh(cwnd: u32, mtu: u32): u32 {
    Max(cwnd / 2, Quad32(mtu))
  }

  lemma LossSsthreshBounds(cwnd: u32, mtu: u32)
    requires mtu < 0x4000_0000
    ensures LossSsthresh(cwnd, mtu) >= 4 * mtu && LossSsthresh(cwnd, mtu) >= cwnd / 2
    ensures LossSsthresh(cwnd, mtu) == 4 * mtu || 2 * LossSsthresh(cwnd, mtu) <= cwnd
  {
    assert Quad32(mtu) == 4 * mtu;
  }

  /**
   * The peer's rwnd after a SACK: the advertised window less the bytes still
   * outstanding (cast to u32 like the source), and 0 when that would be negative.
   */
  function RwndAfterSack(advertised: u32, outstanding: nat): (rwnd: u32) {
    var o := outstanding % 0x1_0000_0000;
    if o >= advertised then 0 else advertised - o
  }

  lemma RwndAfterSackMeaning(advertised: u32, outstanding: nat)
    requires outstanding < TWO_32
    ensures RwndAfterSack(advertised, outstanding) <= advertised
    ensures RwndAfterSack(advertised, outstanding) == 0 <==> outstanding >= advertised
    ensures outstanding < advertised ==> RwndAfterSack(advertised, outstanding) + outstanding == advertised
  {
  }

  /** `u32::saturating_sub`. */
  function SaturatingSub(a: u32, b: u32): (r: u32) {
    if a >= b then a - b else 0
  }

  lemma SaturatingSubMeaning(a: u32, b: u32)
    ensures SaturatingSub(a, b) <= a
    ensures SaturatingSub(a, b) == 0 <==> a <= b
    ensures a > b ==> SaturatingSub(a, b) + b == a
  {
  }

  /**
   * The last TSN received from the peer before its first one: the peer's
   * initial TSN minus one, wrapping 0 to u32::MAX.
   */
  function PeerLastTsnBefore(initialTsn: u32): (t: u32) {
    if initialTsn == 0 then U32_MAX else initialTsn - 1
  }

  lemma PeerLastTsnBeforePrecedes(initialTsn: u32)
    ensures Add32(PeerLastTsnBefore(initialTsn), 1) == initialTsn
    ensures Lt32(PeerLastTsnBefore(initialTsn), initialTsn)
    ensures Distance(PeerLastTsnBefore(initialTsn), initialTsn) == 1
  {
  }
}
