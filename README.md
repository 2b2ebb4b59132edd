# sctp-proto core in Dafny

This is a Dafny model of the protocol core of `sctp-proto`, a sans-I/O
implementation of SCTP (RFC 4960) with the partial reliability extension
(RFC 3758) that WebRTC data channels use. The model covers three parts of
the crate.

- **The payload queue** (`src/queue/payload_queue.rs`). It holds DATA chunks
  by TSN and keeps a list of the TSNs ordered by serial-number arithmetic
  (RFC 1982). It serves as the receive buffer (duplicate detection and gap
  ack blocks) and as the in-flight queue (acknowledgement, retransmission
  marks and byte counts). It is modelled as the class
  `PayloadQueues.PayloadQueue`, with a `map` field for the chunks and a
  `seq` field for the sorted keys.
- **The packet codec** (`src/packet.rs`). The common header is 12 bytes:
  ports, verification tag, and a CRC32c checksum stored little-endian.
  Chunks follow, each padded to a multiple of four bytes. The model covers
  `unmarshal`, `partial_unmarshal`, `marshal` and `check_packet`. The wire
  format is `seq<byte>`, and one of the proved properties is the round trip
  `Decode(Encode(p)) == Ok(p)`.
- **The association** (`src/association/mod.rs`). This is the per-peer
  state machine. It covers the handshake (INIT, INIT ACK, COOKIE ECHO,
  COOKIE ACK), shutdown, receiving DATA and FORWARD TSN, SACK processing,
  fast retransmit and recovery, congestion control, moving pending chunks
  into flight, building FORWARD TSN and SACK chunks, and the timer
  callbacks. It is modelled as the class `Associations.Association`. Its
  methods name the fields they change (`modifies this`field`), so every
  field a method does not name is unchanged.

Every loop of these operations becomes a `while` loop. Its invariant is a
ghost predicate over the state so far, and a fold (`GapFold`, `MissFold`,
`ResendFold`, `Drain`, `SsnReport`, ...) states what the whole loop
computes. These folds live in modules of their own (`SackScans`,
`FastRetransmit`, `Transmit`, `TsnRuns`), and lemmas prove the protocol's
promises about them: bytes are conserved, acknowledgement is exact, the
right chunks are retransmitted, and each stream is reported once with an
SSN of one of its skipped chunks. When each stream's SSNs lie within half
the 16-bit circle, as `sna16lt` needs to be an order, that SSN is the
stream's greatest (`TsnRuns.SsnReportIsGreatest`).

Some of the crate's code is not part of this model, and the model takes it
as given:

- **TSN comparisons.** `sna32lt`, `sna32gt`, `sna32lte`, `sna32gte` and
  `sna16lt` live in `src/util.rs`, which is not part of this model.
  `Serial` defines them as RFC 1982 serial-number comparisons (Lt32 and
  friends).
- **Chunk formats.** The codecs of the individual chunks (`src/chunk/*`)
  are not part of this model. `Packets.ChunkCodec` takes their
  `marshal`/`unmarshal` pair, and the CRC32c function, as parameters.
- **Constants.** The configuration (`src/config.rs`) is not part of this
  model. Only the constants the core uses appear, with their values
  (`COMMON_HEADER_SIZE` = 12, `DATA_CHUNK_HEADER_SIZE` = 16, port 5000,
  and the rest).

Where the Rust code differs from the RFC or from its evident intent, the
association follows the code as written. Its constructor requires that the
initial cwnd's `clamp` does not panic, and `New` returns that panic as an
error. Retransmission bundles chunks as `bundle_data_chunks_into_packets`
is written. A SACK carries the gap blocks `get_gap_ack_blocks` computes.
Each such difference is a row under "## Findings", and the row's corrected
member is a separate definition with the intended property proved about
it. Integer types are modelled at
their widths. `u32` arithmetic wraps as release builds do (`Serial.Add32`).
A Rust panic (an out-of-range read, or a `clamp` whose bounds are crossed)
becomes the error value `Panic`.

## Model

| member | source | states |
|---|---|---|
| Serial.Distance | src/queue/payload_queue.rs:22-28 | The forward serial distance from `a` to `b` is below 2^32, and it is zero exactly when `a == b`. |
| Serial.LtIsShortForwardDistance | src/queue/payload_queue.rs:22-28 | `a` is serially before `b` exactly when `b` lies between 1 and 2^31 - 1 steps ahead of `a`. |
| Serial.WindowOrder | src/queue/payload_queue.rs:22-28 | Inside a half-circle window above a base, the serial order is the order of the distances from the base. |
| Serial.Window16Order | src/association/mod.rs:2559 | Inside a half-circle window above a base, `sna16lt` is the order of the distances from the base. |
| Serial.SuccessorFollows | src/association/mod.rs:2470-2474 | A TSN plus one, wrapping, is serially after the TSN, even at u32::MAX. |
| Serial.LtNotTransitive | src/queue/payload_queue.rs:22-28 | The serial order is not transitive: 0 < 0x55555556 < 0xAAAAAAAC < 0 is a cycle, so a sort by it is defined only within half the circle. |
| Serial.DistanceOfAdd | src/association/mod.rs:1250 | Adding `n` below 2^32 moves a TSN exactly `n` steps forward. |
| Serial.AddOfDistance | src/association/mod.rs:1250 | Adding the distance from `a` to `b` to `a` gives `b`. |
| Serial.DistanceRebase | src/association/mod.rs:1250 | Distances from a later base are shorter by exactly the distance between the two bases. |
| Chunks.LastStateCookieIndex | src/association/mod.rs:1020-1032 | The result is the index of the last State Cookie parameter, or -1 when there is none. |
| Chunks.LastStateCookie | src/association/mod.rs:1020-1032 | The result is None exactly when no parameter is a State Cookie; otherwise it is the cookie of the last one. |
| Chunks.AdvertisesForwardTsnStep | src/association/mod.rs:918-927 | Looking at one more parameter adds exactly that parameter's listing of FORWARD TSN. |
| Chunks.LastStateCookieStep | src/association/mod.rs:1020-1032 | A later State Cookie overrides the earlier ones. |
| GapAcks.ExtendBlocks | src/queue/payload_queue.rs:104-114 | One more offset extends the open block or opens a new block, and the last block ends at that offset. |
| GapAcks.GapBlocks | src/queue/payload_queue.rs:90-120 | The blocks of a non-empty offset list end at its last offset. |
| GapAcks.GapBlocksEmpty | src/queue/payload_queue.rs:90-93 | No offsets give no blocks. |
| GapAcks.GapBlocksAreMaximalRuns | src/queue/payload_queue.rs:90-120 | For strictly increasing offsets, the blocks are separated by gaps and expand back to exactly the offsets: maximal runs of consecutive TSNs. |
| GapAcks.MaximalRunsStep | src/queue/payload_queue.rs:104-114 | The run property survives adding one more offset. |
| GapAcks.OrderedWindowGivesIncreasingOffsets | src/queue/payload_queue.rs:22-28 | Keys sorted serially and all within a half-circle above the cumulative TSN have strictly increasing distances from it. |
| GapAcks.WrappingBlocksListDistances | src/queue/payload_queue.rs:90-120 | With wrapping distances, the blocks of such keys list exactly the keys' distances from the cumulative TSN. |
| GapAcks.AsWrittenAgreesWithoutWrap | src/queue/payload_queue.rs:98-102 | When neither the key nor the cumulative TSN wraps, the plain `tsn >= cum` offset equals the serial distance. |
| GapAcks.GapOffsetAcrossWrap | src/queue/payload_queue.rs:98-102 | With cumulative TSN u32::MAX and key 1, the offset as written is 0 where the serial distance is 2 (see Findings). |
| PayloadQueues.BytesOfAppend | src/queue/payload_queue.rs:156-158 | The byte count of a joined key list is the sum of the two parts' counts. |
| PayloadQueues.BytesOfUpdate | src/queue/payload_queue.rs:81-83 | Replacing one chunk changes the byte count by the difference in data length. |
| PayloadQueues.NoDuplicatesCardinality | src/queue/payload_queue.rs:160-163 | A duplicate-free key list is as long as its set of keys. |
| PayloadQueues.PlacementKeepsOrder | src/queue/payload_queue.rs:21-29 | Inserting a key at its serial place keeps the list serially sorted. |
| PayloadQueues.InsertedIsRearrangement | src/queue/payload_queue.rs:21-29 | The list after insertion is a permutation of the old list plus the key. |
| PayloadQueues.AcceptedPlacementKeepsOrder | src/queue/payload_queue.rs:46-61 | A key `push` accepts, inserted at its place, keeps the window sorted. |
| PayloadQueues.PayloadQueue.constructor | src/queue/payload_queue.rs:17-19 | A new queue is empty and well formed. |
| PayloadQueues.PayloadQueue.UpdateSortedKeys | src/queue/payload_queue.rs:21-29 | The appended key is moved to the place ordering by `sna32lt` gives it among the earlier keys (`PlacedAt`), and the queue stays well formed; `InsertedIsRearrangement` and `PlacementKeepsOrder` show that this is a permutation and keeps the keys sorted. |
| PayloadQueues.PayloadQueue.InsertionPoint | src/queue/payload_queue.rs:22-28 | The index returned has only serially-earlier keys before it and no serially-earlier key after it. |
| PayloadQueues.PayloadQueue.CanPush | src/queue/payload_queue.rs:31-33 | True exactly when the TSN is not held and lies 1 to 2^31 steps ahead of the cumulative TSN. |
| PayloadQueues.PayloadQueue.PushNoCheck | src/queue/payload_queue.rs:35-41 | The chunk is stored under its TSN, the bytes grow by its length, and the key takes its serial place. |
| PayloadQueues.PayloadQueue.Push | src/queue/payload_queue.rs:46-61 | A duplicate or an out-of-window TSN is refused, and a duplicate is logged. Otherwise the chunk is added as by `PushNoCheck`, keeping the keys in order. |
| PayloadQueues.PayloadQueue.Pop | src/queue/payload_queue.rs:64-75 | It returns the head chunk exactly when the head's TSN is the one asked for, and removes it with its bytes; otherwise nothing changes. |
| PayloadQueues.PayloadQueue.Get | src/queue/payload_queue.rs:78-80 | The result is Some exactly when the TSN is held, and then it is that chunk. |
| PayloadQueues.PayloadQueue.SetChunk | src/queue/payload_queue.rs:81-83 | Only the chunk at that TSN is replaced, keeping its TSN and data length, so the keys and the byte count are unchanged. |
| PayloadQueues.PayloadQueue.PopDuplicates | src/queue/payload_queue.rs:86-88 | It returns the duplicate log and leaves it empty. |
| PayloadQueues.PayloadQueue.GetGapAckBlocks | src/queue/payload_queue.rs:90-120 | The loop returns the runs of consecutive offsets as written: `tsn - cum` truncated to u16 when `tsn >= cum` as plain integers, and 0 otherwise. |
| PayloadQueues.PayloadQueue.NextGapAckBlock | src/queue/payload_queue.rs:104-114 | One key extends the open block or closes it and opens the next one. |
| PayloadQueues.PayloadQueue.CorrectedGapAckBlocks | src/queue/payload_queue.rs:90-120 | There is no block exactly when the queue is empty. For keys sorted in the half circle above the cumulative TSN and within 2^16 of it, the blocks expand to exactly the keys' serial distances (section 3.3.4 of RFC 4960). |
| PayloadQueues.PayloadQueue.MarkAsAcked | src/queue/payload_queue.rs:130-141 | A held chunk becomes acknowledged with its data dropped, and the byte count falls by the data length. A missing TSN changes nothing and returns 0. |
| PayloadQueues.PayloadQueue.GetLastTsnReceived | src/queue/payload_queue.rs:143-145 | None exactly when the queue is empty; otherwise the last key, which in a sorted queue is serially after every other key. |
| PayloadQueues.PayloadQueue.MarkAllToRetransmit | src/queue/payload_queue.rs:147-154 | Exactly the chunks neither acknowledged nor abandoned are marked for retransmission, and nothing else changes. |
| PayloadQueues.PayloadQueue.GetNumBytes | src/queue/payload_queue.rs:156-158 | The byte count is the sum of the held chunks' data lengths. |
| PayloadQueues.PayloadQueue.Len | src/queue/payload_queue.rs:160-163 | The length is the number of distinct TSNs held. |
| PayloadQueues.PayloadQueue.IsEmpty | src/queue/payload_queue.rs:165-167 | True exactly when no TSN is held. |
| PayloadQueues.PayloadQueue.EmptyExactlyWhenNoKeys | src/queue/payload_queue.rs:160-167 | The queue is empty exactly when its map has no keys. |
| PayloadQueues.PlacementAtHalf | src/queue/payload_queue.rs:22-28 | A key exactly half the circle ahead of the base is preceded by none of the keys, so the sort appends it and the keys stay sorted. |
| Packets.PutU16 | src/packet.rs:275-277 | The two big-endian bytes of a u16; `ReadPut16` and `PutRead16` show it is the inverse of reading one. |
| Packets.PutU32 | src/packet.rs:275-277 | The four big-endian bytes of a u32; `ReadPut32` and `PutRead32` show it is the inverse of reading one. |
| Packets.PutU32Le | src/packet.rs:300-301 | The four little-endian bytes of the checksum; `ReadPut32Le` and `PutRead32Le` show it is the inverse of reading one. |
| Packets.ReadPut16 | src/packet.rs:79-82 | Reading back a written u16 gives the value. |
| Packets.PutRead16 | src/packet.rs:79-82 | Writing a u16 that was read gives back the bytes. |
| Packets.ReadPut32 | src/packet.rs:79-82 | Reading back a written big-endian u32 gives the value. |
| Packets.PutRead32 | src/packet.rs:79-82 | Writing a big-endian u32 that was read gives back the bytes. |
| Packets.ReadPut32Le | src/packet.rs:301 | Reading back a written little-endian u32 gives the value. |
| Packets.PutRead32Le | src/packet.rs:301 | Writing a little-endian u32 that was read gives back the bytes. |
| Packets.PaddingSize | src/packet.rs:170 | The padding is below 4 and brings the length to a multiple of 4. |
| Packets.PaddingShift | src/packet.rs:287 | Padding depends only on the length modulo 4. |
| Packets.ParseChunksShift | src/packet.rs:127-173 | Parsing from an offset into a buffer is parsing the buffer's suffix. |
| Packets.WalkChunks | src/packet.rs:127-173 | The chunk loop returns what the chunk-list parser says: chunks in order, each padded end aligned, or the first error. |
| Packets.Unmarshal | src/packet.rs:209-270 | The decoder returns exactly `Decode`: an error below the 12-byte header or on a checksum mismatch, otherwise the header and the chunk walk from offset 12. |
| Packets.PartialUnmarshal | src/packet.rs:72-122 | Header errors pass through. A packet too short for a chunk header is refused, and a chunk-header error passes through. Otherwise `firstChunkType` is the parsed chunk type and `remaining` is everything after the 12-byte header. The initiate tag is read at offset 16 exactly for INIT and INIT ACK, and the cookie is the chunk's value bytes exactly for COOKIE ECHO. The result is `Panic` exactly when either read runs past the input. |
| Packets.Finish | src/packet.rs:124-179 | Finishing a partial decode parses the remaining chunks. |
| Packets.PartialThenFinishIsUnmarshal | src/packet.rs:72-179 | The partial decode followed by `finish` is the full decode. |
| Packets.HeaderBytes | src/packet.rs:275-277 | The first 8 header bytes: the ports and the tag, big-endian; `HeaderBytesOfDecoded` shows they re-encode what is read. |
| Packets.AppendChunks | src/packet.rs:284-292 | The chunk loop only appends, and from an aligned start it leaves the buffer aligned unless a chunk encoder fails. |
| Packets.PatchChecksum | src/packet.rs:300-301 | The buffer with the checksum written little-endian into its 4-byte slot, the length kept. |
| Packets.Writer.constructor | src/packet.rs:307 | An empty output buffer. |
| Packets.MarshalTo | src/packet.rs:272-304 | The writer gains the header, a zero checksum slot and the padded chunks, and then the CRC of all its bytes is written into the slot; a failing chunk encoder returns its error. |
| Packets.WriteChunks | src/packet.rs:284-292 | The chunk loop appends `AppendChunks` of the chunks. |
| Packets.Marshal | src/packet.rs:306-310 | The encoding of a packet is `Encode`, or the first chunk codec error. |
| Packets.DecodeEncode | src/packet.rs:209-310 | Decoding an encoded packet gives the packet back, whenever each chunk codec round-trips and its output is framed by its own length field. |
| Packets.PatchedHeaderDecodes | src/packet.rs:229-253 | Bytes that start with an encoded header and a zero checksum slot, once their CRC is patched in, pass the header checks and give back the header. |
| Packets.HeaderOnlyRoundTrip | src/packet.rs:209-310 | A 12-byte packet that decodes is encoded back to the same 12 bytes. |
| Packets.ChecksumSlotRoundTrip | src/packet.rs:240-253 | Writing back the checksum read from a 12-byte header restores the header. |
| Packets.AppendChunksFrames | src/packet.rs:284-292 | From an aligned writer, with round-tripping codecs, the loop appends exactly each chunk followed by its padding. |
| Packets.ParseFramed | src/packet.rs:127-173 | The chunk walk over such a framing gives back the chunks. |
| Packets.EncodeAligned | src/packet.rs:272-304 | Every encoded packet is a whole number of 4-byte words, at least 12 bytes long, and starts with its header bytes. |
| Packets.CheckInitChunks | src/packet.rs:335-352 | Ok exactly when every INIT chunk is the only chunk and the tag is 0. On an error, an INIT is present, and the error is `ErrInitChunkBundled` when it is not alone and `ErrInitChunkVerifyTagNotZero` otherwise. |
| Packets.CheckPacket | src/packet.rs:314-355 | Ok exactly when both ports are non-zero and every INIT is alone with verification tag 0 (sections 3.1 and 8.5.1 of RFC 4960). A zero source port is reported first, then a zero destination port. |
| Congestion.MtuFor | src/association/mod.rs:311 | The MTU is the payload size plus the 12-byte common header and the 16-byte DATA header, when that fits in a u32. |
| Congestion.InitialCwndAsWritten | src/association/mod.rs:316 | `clamp(2*mtu, 4380, 4*mtu)` panics exactly when 4*mtu < 4380, and otherwise lies between 4380 and 4*mtu. |
| Congestion.InitialCwndBounds | src/association/mod.rs:313-316 | The initial cwnd of section 7.2.1 of RFC 4960 is at most 4*MTU and at least 2*MTU, or 4*MTU when that is smaller. It is at least 4380 when 4*MTU is, and then it equals the source's value. |
| Congestion.InitialCwndPanicsOnSmallMtu | src/association/mod.rs:316 | A payload size of 972 (MTU 1000) panics as written, where the RFC gives 4000 (see Findings). |
| Congestion.SlowStartGrowth | src/association/mod.rs:1710-1711 | In slow start, cwnd grows by no more than the bytes acknowledged and at most doubles; it grows by exactly those bytes when they are at most cwnd. |
| Congestion.CongestionAvoidanceStep | src/association/mod.rs:1738-1747 | In congestion avoidance, cwnd grows, by exactly one MTU, exactly when the partial bytes acked reach cwnd and data is waiting. The counter then drops by cwnd; otherwise only the counter grows. |
| Congestion.LossSsthreshBounds | src/association/mod.rs:1794 | ssthresh after a loss is at least 4*MTU and at least half of cwnd, and it is 4*MTU or at most half of cwnd (section 7.2.3 of RFC 4960). |
| Congestion.RwndAfterSackMeaning | src/association/mod.rs:1280-1285 | The peer's rwnd after a SACK is at most its advertised credit. It is zero exactly when the bytes in flight reach the credit, and otherwise the two add up to the credit. |
| Congestion.PeerLastTsnBeforePrecedes | src/association/mod.rs:912-916 | The peer's cumulative TSN starts one before its initial TSN, wrapping, so the initial TSN is serially next, one step away. |
| Bundling.BundleDataChunksIntoPacketsAsWritten | src/association/mod.rs:2441-2467 | The loop as written returns the packets of `AsWrittenRun`; `AsWrittenKeepsOrder` shows they carry the input in order. |
| Bundling.AsWrittenKeepsOrder | src/association/mod.rs:2441-2467 | The groups of the loop as written, joined, are exactly its input. |
| Bundling.AsWrittenExceedsMtu | src/association/mod.rs:2452 | Two 600-byte chunks with MTU 1228 go into one packet of 1244 bytes (see Findings). |
| Bundling.AsWrittenEmptyPacket | src/association/mod.rs:2452 | A single 1217-byte chunk with MTU 1228 makes an empty packet first (see Findings). |
| Bundling.CorrectedBundling | src/association/mod.rs:2441-2467 | The corrected groups, joined, are the input in order, and no group is empty. Every packet fits the MTU, counting each chunk's 16-byte header and padding, unless it is one chunk that alone exceeds it. A packet is closed only when the next chunk would not fit. |
| Bundling.BundleDataChunksIntoPackets | src/association/mod.rs:2441-2467 | The corrected loop returns the packets of `CorrectedRun`, which `CorrectedBundling` describes. |
| Bundling.CorrectedRunShape | src/association/mod.rs:2446-2460 | The loop's state after each chunk is the packed groups so far plus an open group. |
| AssociationStates.AckDecisionDelaysExactly | src/association/mod.rs:1509-1522 | The SACK is delayed exactly when the ack state is idle and the mode always delays, or the mode is normal with no loss and no immediate SACK requested; with no delay it is always immediate. |
| StreamBytes.TotalRemove | src/association/mod.rs:1978-1985 | Removing one stream takes exactly its count off the total. |
| StreamBytes.TotalCredit | src/association/mod.rs:1244-1247 | Crediting a stream grows the total by exactly the credited bytes. |
| StreamBytes.CreditAfterCreate | src/association/mod.rs:1963-1976 | Creating a stream with no bytes, then crediting it, is crediting it once. |
| TsnRuns.AckedRunLength | src/association/mod.rs:1561-1619 | The cumulative-ack loop visits at most 2^31 TSNs, and when it visits any, it visits exactly the distance to the target. |
| TsnRuns.AckedRunGuard | src/association/mod.rs:1561-1563 | After `p` TSNs, the loop guard holds exactly while fewer than the run length were visited. |
| TsnRuns.AckedRunNext | src/association/mod.rs:1561-1619 | From one visited TSN the loop steps to the next, and only the first one follows the ack point directly. |
| TsnRuns.AckedRunReachesTarget | src/association/mod.rs:1561-1619 | Unless the target is serially below the ack point, the loop walks exactly to the target. |
| TsnRuns.ForwardRunLength | src/association/mod.rs:1400-1403 | The `while from < target` loop steps the distance exactly when the target is serially ahead, and not at all otherwise. |
| TsnRuns.ForwardRunGuard | src/association/mod.rs:1400-1403 | After `p` steps the guard holds exactly while fewer than the run length were taken, and the run ends on the target. |
| TsnRuns.FollowingSize | src/association/mod.rs:1299-1306 | The `n` TSNs after a base are `n` distinct TSNs. |
| TsnRuns.RunFitsInKeys | src/association/mod.rs:1299-1306 | A walk over present TSNs takes at most as many steps as the queue holds, so it ends. |
| TsnRuns.RunExtends | src/association/mod.rs:1299-1306 | A run of present TSNs followed by a present TSN is one longer. |
| TsnRuns.ReportSsn | src/association/mod.rs:2556-2571 | The report names the chunk's stream, keeping a serially later SSN already recorded. |
| TsnRuns.SsnReportIsSound | src/association/mod.rs:2554-2571 | The FORWARD TSN report names exactly the streams of the skipped chunks, each with the SSN of one of that stream's chunks. |
| TsnRuns.SsnReportIsGreatest | src/association/mod.rs:2553-2571 | When each skipped chunk's SSN lies within half the 16-bit circle above a base for its stream, every chunk's stream is reported with an SSN that no chunk of that stream serially follows: the greatest SSN of each stream, reported once. |
| TsnRuns.ReportStep | src/association/mod.rs:2556-2571 | Reporting one more chunk keeps the report sound. |
| SackScans.AckOf | src/association/mod.rs:1626-1673 | A chunk a gap block covers ends acknowledged with its data dropped and not marked for retransmission; an acknowledged chunk is untouched. |
| SackScans.AckedPerStreamTotal | src/association/mod.rs:1577-1581 | The bytes acknowledged per stream add up to the bytes of the newly acknowledged chunks. |
| SackScans.NewlyAckedIsAllData | src/association/mod.rs:1577-1581 | When acknowledged chunks hold no data, the newly acknowledged bytes are all the run's bytes. |
| SackScans.RttMarkAfterValues | src/association/mod.rs:1592-1593 | The RTT mark stays or becomes the next TSN, and it stays when no chunk was sent exactly once (Karn's rule, section 6.3.1 C5 of RFC 4960). |
| SackScans.GapFoldAcknowledges | src/association/mod.rs:1624-1675 | The gap blocks leave every chunk they cover acknowledged and every other chunk as it was, and they never add or drop a chunk. |
| SackScans.GapFoldMarks | src/association/mod.rs:1624-1675 | The HTNA ends at its start or at a covered TSN, and the RTT mark at its start or the next TSN. |
| SackScans.GapFoldConserves | src/association/mod.rs:1624-1675 | No byte is lost or counted twice: what leaves the outstanding bytes is credited to exactly one stream. |
| SackScans.GapFoldAppend | src/association/mod.rs:1624-1675 | Scanning one list of TSNs after another is scanning them joined. |
| SackScans.GapTsnsPrefix | src/association/mod.rs:1624-1675 | The TSNs of the first blocks are a prefix of the TSNs of all blocks. |
| FastRetransmit.MissFoldChunks | src/association/mod.rs:1783-1813 | The scan fails exactly when some scanned TSN is not in flight, and then with `ErrTsnRequestNotExist`. Otherwise it keeps the chunks and only raises miss indicators, never past three. |
| FastRetransmit.MissFoldErrPrefix | src/association/mod.rs:1783-1813 | The scan fails at the first TSN not in flight. |
| FastRetransmit.MissFoldRecovery | src/association/mod.rs:1788-1797 | Fast recovery is entered at most once. Inside it, or without entering it, the window is unchanged. On entry, ssthresh is max(cwnd/2, 4*MTU), cwnd equals ssthresh, the partial bytes acked are 0, the exit point is the HTNA, and a fast retransmission is due. |
| FastRetransmit.MissFoldEntersOnThirdMiss | src/association/mod.rs:1788-1797 | Outside fast recovery, the sender enters it exactly when some chunk reached its third miss indication during the scan. |
| Transmit.ResendFoldStopsForGood | src/association/mod.rs:2306-2357 | Once the retransmission walk breaks off, further steps change nothing. |
| Transmit.ResendFoldPresent | src/association/mod.rs:2306-2357 | The walk keeps the chunks' TSNs, and a walk still going after `n` steps found every TSN it visited in flight. |
| Transmit.ResendFoldKeeps | src/association/mod.rs:2306-2357 | Only chunks marked for retransmission change, each to itself resent (sent once more, mark cleared) and only when gathered. The gathered bytes fit the window, except for a lone zero window probe at the first TSN. |
| Transmit.DrainResetStep | src/association/mod.rs:2384-2391 | Draining from a head without data moves its stream to the resets and drains the rest. |
| Transmit.DrainSendStep | src/association/mod.rs:2393-2414 | Draining from a head that fits cwnd and rwnd sends it under the next TSN and drains the rest with its bytes taken into account. |
| Transmit.DrainConsumes | src/association/mod.rs:2379-2416 | The drain consumes a prefix of the pending queue. Its chunks with data are sent under consecutive TSNs from the next TSN, its chunks without data become stream resets, and the rest stays pending. |
| Transmit.DrainFits | src/association/mod.rs:2379-2416 | The data sent fits cwnd on top of the bytes in flight and is taken off rwnd. A chunk left at the head of the pending queue carries data and fits cwnd or rwnd no more. |
| Associations.HeadsRunAll | src/association/mod.rs:1561-1619 | A queue whose first entries are the whole run from the ack point to the target heads that run. |
| Associations.RunPrefixStep | src/association/mod.rs:1561-1619 | A pop that finds the run's next TSN extends the prefix by one; any other head means the queue did not head the run. |
| Associations.CumulativeFoldStep | src/association/mod.rs:1561-1619 | Popping the head chunk as the loop does extends the cumulative fold by that chunk. |
| Associations.SelectiveAckConserves | src/association/mod.rs:1549-1678 | Processing a SACK loses no byte and counts none twice: the bytes acknowledged per stream plus those still outstanding equal those outstanding before. |
| Associations.CumulativeConserves | src/association/mod.rs:1561-1619 | The popped chunks' data leaves the outstanding bytes for the per-stream counts. |
| Associations.GapsConserve | src/association/mod.rs:1624-1675 | What the gap blocks acknowledge leaves the outstanding bytes for the per-stream counts. |
| Associations.GapBlockCovered | src/association/mod.rs:1624-1675 | The TSNs of the blocks so far and of the next block are all in flight exactly when each part is. |
| Associations.SentTsnsStayFresh | src/association/mod.rs:2598-2643 | Sending the first pending chunk under the next TSN leaves the following TSNs free for the rest. |
| Associations.DrainedSend | src/association/mod.rs:2379-2416 | Sending the pending head that fits keeps the drain on track, one chunk further. |
| Associations.AbandonedRunExtends | src/association/mod.rs:1299-1306 | An abandoned chunk right after an abandoned run extends it, and the run never outgrows the queue. |
| Associations.TotalBytesAcked | src/association/mod.rs:1244-1247 | The sum of the per-stream acknowledged counts. |
| Associations.ListStreams | src/association/mod.rs:2579-2585 | The FORWARD TSN stream list names every entry of the stream map once, with its SSN. |
| Associations.Association.constructor | src/association/mod.rs:294-369 | A client starts in COOKIE-WAIT with its INIT queued on port 5000 and T1-init running, and a server waits in CLOSED. In both, the TSN counters start at the random TSN (1 when it is 0), the ack points one before it, cwnd is the source's `clamp(2*mtu, 4380, 4*mtu)`, and the queues are empty. It requires that the clamp does not panic. |
| Associations.Association.New | src/association/mod.rs:294-369 | `Err(Panic)` exactly when 4*MTU, wrapping, is below 4380, so that the source's `clamp` panics. Otherwise a new, well-formed association in COOKIE-WAIT or CLOSED, with the source's cwnd. |
| Associations.Association.CreatePacket | src/association/mod.rs:1924-1933 | The chunks under this association's ports and the peer's verification tag. |
| Associations.Association.GenerateNextTsn | src/association/mod.rs:2470-2474 | It returns the next TSN and advances the counter by one, wrapping, so the new counter is serially next. |
| Associations.Association.GenerateNextRsn | src/association/mod.rs:2477-2481 | It returns the next reconfiguration request sequence number and advances it by one, wrapping. |
| Associations.Association.SendInit | src/association/mod.rs:731-754 | `ErrInitNotStoredToSend` without a stored INIT; otherwise both ports become 5000 and the INIT is queued. |
| Associations.Association.SendCookieEcho | src/association/mod.rs:757-777 | `ErrCookieEchoNotStoredToSend` without a stored cookie; otherwise the COOKIE ECHO is queued. |
| Associations.Association.ScanParams | src/association/mod.rs:918-927 | FORWARD TSN is used once any Supported Extensions parameter lists it, and the cookie is the last State Cookie. |
| Associations.Association.HandleInit | src/association/mod.rs:879-964 | Refused outside CLOSED, COOKIE-WAIT and COOKIE-ECHOED. Otherwise it adopts the peer's tag, ports and TSN, lowers the stream counts to the peer's, and answers with an INIT ACK carrying the state cookie. |
| Associations.Association.HandleInitAck | src/association/mod.rs:966-1053 | Ignored outside COOKIE-WAIT. The peer's tag, TSN and stream counts are taken before the port check, and a port mismatch drops the chunk. |
| Associations.Association.AcceptInitAck | src/association/mod.rs:1001-1052 | rwnd and ssthresh become the peer's window, the INIT is dropped, and the last cookie is echoed under T1-cookie in COOKIE-ECHOED. Without a cookie it is an error. |
| Associations.Association.HandleHeartbeat | src/association/mod.rs:1055-1080 | The Heartbeat Info goes back unchanged in a HEARTBEAT ACK. |
| Associations.Association.HandleCookieEcho | src/association/mod.rs:1082-1125 | A COOKIE ECHO matching our cookie gets a COOKIE ACK and, in the handshake states, establishes the association; any other one is dropped. |
| Associations.Association.HandleCookieAck | src/association/mod.rs:1127-1146 | Only in COOKIE-ECHOED does it stop T1-cookie, drop the stored COOKIE ECHO, queue a connected event and establish the association; elsewhere nothing changes. |
| Associations.Association.Shutdown | src/association/mod.rs:579-600 | Outside ESTABLISHED it is `ErrShutdownNonEstablished` and nothing changes. Otherwise a drained event is queued, and with `inflight_queue_length` 0 it moves to SHUTDOWN-SENT with a SHUTDOWN due; else it waits in SHUTDOWN-PENDING. |
| Associations.Association.CloseAllTimers | src/association/mod.rs:2693-2698 | No timer runs afterwards. |
| Associations.Association.UnregisterStream | src/association/mod.rs:707-712 | Exactly that stream is removed. |
| Associations.Association.Close | src/association/mod.rs:603-644 | The association is CLOSED with no timers and no streams; closing a closed association changes nothing. |
| Associations.Association.HandleShutdown | src/association/mod.rs:1426-1449 | An established endpoint with data in flight enters SHUTDOWN-RECEIVED; one with nothing in flight, or in SHUTDOWN-SENT, answers with SHUTDOWN ACK. |
| Associations.Association.HandleShutdownAck | src/association/mod.rs:1451-1461 | In SHUTDOWN-SENT or SHUTDOWN-ACK-SENT it stops T2 and sends SHUTDOWN COMPLETE; otherwise nothing. |
| Associations.Association.HandleShutdownComplete | src/association/mod.rs:1463-1471 | In SHUTDOWN-ACK-SENT the association closes; otherwise nothing. |
| Associations.Association.GetOrCreateStream | src/association/mod.rs:1963-1976 | An existing stream is kept. A new one starts empty, is queued for the application to accept, and is announced with a stream-opened event. |
| Associations.Association.GetMyReceiverWindowCredit | src/association/mod.rs:1978-1985 | The receive buffer less the bytes queued on all streams, summed with u32 wrap-around, floored at 0. |
| Associations.Association.HandlePeerLastTsnAndAcknowledgement | src/association/mod.rs:1474-1525 | The peer's cumulative TSN moves over the buffer's head run, and then the SACK trigger is set as `AckDecision` says, a loss being any chunk left in the buffer. |
| Associations.Association.AdvancePeerLastTsn | src/association/mod.rs:1488-1497 | The cumulative TSN steps over exactly the leading chunks that follow it without a gap, and those chunks are popped. |
| Associations.Association.PopReceived | src/association/mod.rs:1488-1497 | It pops the TSN after the cumulative TSN when that TSN heads the buffer, and steps over it. |
| Associations.Association.TriggerAck | src/association/mod.rs:1509-1522 | The trigger `AckDecision` picks is set, and the other is unchanged. |
| Associations.Association.ReceiveData | src/association/mod.rs:1158-1201 | A chunk is accepted exactly when it is new, ahead of the peer's cumulative TSN, and the window is open or it fills a hole below the newest TSN held. An accepted chunk goes into the receive buffer with its bytes onto its stream and a datagram-received event. The stream is created for any pushable chunk, and the duplicate log is not touched. |
| Associations.Association.OpenStreamAndPush | src/association/mod.rs:1181-1200 | The stream is created, then the chunk is pushed against the receive window credit. |
| Associations.Association.PushIfRoom | src/association/mod.rs:1181-1200 | With the window closed, only a chunk below the newest TSN held is taken. |
| Associations.Association.HandleData | src/association/mod.rs:1148-1204 | It receives the chunk, advances the peer's cumulative TSN and triggers a SACK, immediate when the I bit is set. |
| Associations.Association.SkipToNewCumulativeTsn | src/association/mod.rs:1400-1403 | The peer's cumulative TSN moves to the new one, dropping each passed TSN at the buffer's head; the loop does not run when the new TSN is not serially ahead. |
| Associations.Association.SkipOne | src/association/mod.rs:1400-1403 | It drops the next TSN if it heads the buffer, and counts it. |
| Associations.Association.HandleForwardTsn | src/association/mod.rs:1346-1424 | Without the extension it answers with an "Unrecognized Chunk Type" error, and an out-of-date FORWARD TSN asks for an immediate SACK. Otherwise the cumulative TSN moves to the new one and on over what follows (section 3.6 of RFC 3758). The per-stream notifications of mod.rs:1408-1421 are left out (see "## Left out"). |
| Associations.Association.PopCumulativelyAcked | src/association/mod.rs:1559-1619 | It pops every TSN from the ack point up to the SACK's cumulative TSN ack, and fails with `ErrInflightQueueTsnPop` exactly when those TSNs are not the head of the in-flight queue in order. |
| Associations.Association.AckCumulativeTsn | src/association/mod.rs:1561-1619 | One step: pop TSN `i`, which must head the in-flight queue. |
| Associations.Association.AckPopped | src/association/mod.rs:1572-1617 | The popped chunk's bytes leave the outstanding count, are credited when newly acknowledged, and move the RTT mark by Karn's rule; fast recovery ends at the exit point. |
| Associations.Association.PopCumulativeStep | src/association/mod.rs:1561-1619 | The loop body: pop TSN `i` and step to the next. |
| Associations.Association.PoppingStarts | src/association/mod.rs:1559-1561 | The loop starts after the ack point with nothing popped. |
| Associations.Association.PoppedAll | src/association/mod.rs:1561-1619 | A loop that ends without a failed pop popped the whole run, which headed the queue. |
| Associations.Association.AckGapTsn | src/association/mod.rs:1626-1673 | A chunk not acknowledged before is marked acknowledged and its bytes credited; fails with `ErrTsnRequestNotExist` when the TSN is not in flight. |
| Associations.Association.AckGapBlockStep | src/association/mod.rs:1625-1674 | The loop body over one block: the TSN at offset `k`. |
| Associations.Association.AckGapBlock | src/association/mod.rs:1625-1674 | The TSNs of one block, in order, as `GapFold` says; fails exactly when one is not in flight. |
| Associations.Association.AckGapBlocksStep | src/association/mod.rs:1624-1675 | The loop body over the blocks: block `b`. |
| Associations.Association.AckGapBlocks | src/association/mod.rs:1624-1675 | All gap blocks, block by block, as `GapFold` over `GapTsns` says. |
| Associations.Association.ProcessSelectiveAck | src/association/mod.rs:1549-1678 | It pops the chunks the cumulative TSN ack covers, then marks those the gap blocks cover. It returns the bytes acknowledged per stream and the HTNA, losing no byte. |
| Associations.Association.AckSackGaps | src/association/mod.rs:1621-1677 | The gap-block half, starting from the bytes acknowledged so far and the SACK's cumulative TSN ack as HTNA. |
| Associations.Association.AckGaps | src/association/mod.rs:1621-1677 | The gap-block half once the cumulative half succeeded. |
| Associations.Association.EnterFastRecovery | src/association/mod.rs:1792-1797 | ssthresh becomes max(cwnd/2, 4*MTU), cwnd becomes ssthresh, the exit point becomes the HTNA, and fast recovery starts. |
| Associations.Association.MissOne | src/association/mod.rs:1785-1810 | One TSN reported missing, as `MissStep` says; fails when it is not in flight. |
| Associations.Association.MissScanStep | src/association/mod.rs:1783-1813 | The loop body: the `k`-th TSN of the scan. |
| Associations.Association.ScanMisses | src/association/mod.rs:1783-1813 | The scan from `start` up to the limit, as `MissFold` says. |
| Associations.Association.ProcessFastRetransmission | src/association/mod.rs:1759-1821 | Outside fast recovery, the TSNs between the cumulative TSN ack and the HTNA gain a miss indication; in fast recovery with the ack point advanced, all TSNs in flight do. It fails with `ErrTsnRequestNotExist` when a scanned TSN is not in flight. |
| Associations.Association.OnCumulativeTsnAckPointAdvanced | src/association/mod.rs:1680-1757 | T3-rtx stops when nothing is in flight and runs otherwise. At or below ssthresh, cwnd grows by slow start, outside fast recovery and with data waiting; above it, by congestion avoidance. |
| Associations.Association.AdvanceAbandonedAckPoint | src/association/mod.rs:1289-1323 | Rules C1-C3 of section 3.5 of RFC 3758: the advanced peer ack point catches up, moves over the following abandoned run, and a FORWARD TSN is due exactly when it passed the cumulative TSN ack point. |
| Associations.Association.SkipAbandoned | src/association/mod.rs:1299-1306 | Rule C2: the point moves over exactly the abandoned chunks that follow it. |
| Associations.Association.PostprocessSack | src/association/mod.rs:1825-1851 | T3-rtx runs while data is in flight. Once nothing is, a pending shutdown sends SHUTDOWN and a received one sends SHUTDOWN ACK. |
| Associations.Association.SelectiveAck | src/association/mod.rs:1242 | The errors of `process_selective_ack`, a queue no longer than before, and no byte lost. |
| Associations.Association.SackCumulative | src/association/mod.rs:1242-1285 | It processes the acks, moves the ack point and cwnd when the SACK advances it, and sets rwnd to the peer's credit less what is outstanding. |
| Associations.Association.SackAdvance | src/association/mod.rs:1249-1285 | The ack point and the window advance by the bytes acknowledged, and rwnd follows. |
| Associations.Association.AdvanceCumulativeTsnAckPoint | src/association/mod.rs:1249-1261 | A SACK whose cumulative TSN ack is serially past the ack point moves it there and grows the window; any other leaves both. |
| Associations.Association.UpdateRwnd | src/association/mod.rs:1280-1285 | The peer's rwnd is its credit less the bytes in flight, at least zero. |
| Associations.Association.FastRetransmission | src/association/mod.rs:1287 | `process_fast_retransmission` fails exactly when `FastRetransmitted` does, and otherwise leaves the miss indicators, fast recovery, ssthresh, cwnd and the exit point as `FastRetransmitted` says: the TSNs up to the HTNA are scanned outside fast recovery, and the TSNs in flight when the ack point advanced inside it. |
| Associations.Association.SackRecovery | src/association/mod.rs:1287-1325 | Fast retransmission as `FastRetransmitted` says, then rules C1-C3 with FORWARD TSN, then `postprocess_sack`: T3-rtx runs while data is in flight, and a pending shutdown proceeds once none is. Given the ack point and rwnd of the first half, the result is `SackProcessed`. |
| Associations.Association.AbandonAndPostprocess | src/association/mod.rs:1289-1325 | With FORWARD TSN, the advanced peer ack point passes the abandoned run and a FORWARD TSN becomes due when it is ahead of the ack point. Without it, both stay. Then the shutdown steps of `postprocess_sack`. |
| Associations.Association.AcceptSack | src/association/mod.rs:1241-1327 | An accepted SACK moves the ack point when later, updates rwnd, moves the advanced peer ack point over the abandoned run, and makes a FORWARD TSN due when that passes the ack point. |
| Associations.Association.HandleSack | src/association/mod.rs:1206-1328 | A SACK outside ESTABLISHED, SHUTDOWN-PENDING and SHUTDOWN-RECEIVED, or older than the ack point, is dropped; otherwise it is processed as `AcceptSack`. Any error stops the handler. |
| Associations.Association.GetDataPacketsToRetransmit | src/association/mod.rs:2306-2360 | It walks the in-flight TSNs after the ack point as `ResendFold` says, within min(cwnd, rwnd), and bundles the gathered chunks as `bundle_data_chunks_into_packets` is written (`AsWrittenRun`). |
| Associations.Association.ResendWalk | src/association/mod.rs:2312-2357 | The loop: the chunks to resend within the window. |
| Associations.Association.RetransmitStep | src/association/mod.rs:2313-2356 | The `n`-th step of the walk, one `ResendStep` on top of the steps before it. |
| Associations.Association.RetransmitChunk | src/association/mod.rs:2313-2356 | One `ResendStep`: the walk breaks off at a missing TSN and ends after a zero window probe. |
| Associations.Association.MovePendingDataChunkToInflightQueue | src/association/mod.rs:2598-2643 | The pending head is sent for the first time under the next TSN and stored in flight, and the TSN counter advances. |
| Associations.Association.PopPendingDataChunksToSend | src/association/mod.rs:2364-2436 | It drains the pending queue as `Drain` says. When that sends nothing and nothing is in flight, the head goes out as a zero window probe (rule A of section 6.1 of RFC 4960). |
| Associations.Association.ProbeIfIdle | src/association/mod.rs:2418-2432 | The zero window probe: only when nothing was sent and nothing is in flight does the head go into flight. |
| Associations.Association.DrainPendingQueue | src/association/mod.rs:2379-2416 | The loop: `Drain` of the pending queue, each sent chunk taken into flight. |
| Associations.Association.DrainOne | src/association/mod.rs:2379-2416 | One turn: a head without data is a stream reset, a head over cwnd or rwnd stops the loop, and any other goes into flight. |
| Associations.Association.DrainReset | src/association/mod.rs:2384-2391 | A head without data leaves as a stream to reset. |
| Associations.Association.DrainSend | src/association/mod.rs:2393-2414 | A head that fits goes into flight, taking its bytes from rwnd. |
| Associations.Association.CreateForwardTsn | src/association/mod.rs:2552-2595 | Rule C4 of section 3.5 of RFC 3758: the new cumulative TSN is the advanced peer ack point, and the streams list, each once, the entries of `SsnReport` over the chunks skipped: the run in flight after the ack point, up to the advanced point or the first TSN missing. `SsnReportIsSound` and `SsnReportIsGreatest` show that this report carries each skipped stream with its greatest SSN when the SSNs lie within half the 16-bit circle. |
| Associations.Association.CollectStreamSsns | src/association/mod.rs:2554-2571 | The walk: each chunk in flight up to the advanced point reports its SSN, until the first missing TSN. |
| Associations.Association.ReportStream | src/association/mod.rs:2558-2565 | A stream's entry takes the chunk's SSN unless it already holds a serially later one. |
| Associations.Association.CreateSelectiveAckChunk | src/association/mod.rs:2541-2548 | The SACK carries the peer's cumulative TSN, the receive window credit, the gap blocks `get_gap_ack_blocks` computes (offsets as written, see Findings), and the duplicate log, which it empties. |
| Associations.Association.SendPayloadData | src/association/mod.rs:2668-2681 | Outside ESTABLISHED it is an error; otherwise the chunks join the pending queue in order. |
| Associations.Association.OnAckTimeout | src/association/mod.rs:2700-2709 | The delayed SACK is now due immediately. |
| Associations.Association.OnT3RtxTimeout | src/association/mod.rs:2750-2811 | ssthresh is cut as for a loss and cwnd drops to one MTU. With FORWARD TSN, the advanced peer ack point moves over the abandoned run. Every chunk neither acknowledged nor abandoned is marked for retransmission. |
| Associations.Association.AbandonOnTimeout | src/association/mod.rs:2777-2802 | Rule C3: the advanced peer ack point moves over the abandoned chunks, and a FORWARD TSN is due when it passed the ack point. |
| Associations.Association.OnRetransmissionTimeout | src/association/mod.rs:2711-2820 | T1-init resends the stored INIT and T1-cookie the stored COOKIE ECHO. T2-shutdown makes SHUTDOWN or SHUTDOWN ACK due as the state asks. T3-rtx is `OnT3RtxTimeout`, the reconfiguration timer makes the pending request due again, and the ack timer changes nothing. Only T3-rtx touches the in-flight queue and the window. |
| Associations.Association.OnControlTimeout | src/association/mod.rs:2713-2748 | The timeouts other than T3-rtx: each resends, or makes due, its control chunk, and the ack timer changes nothing. |

## Left out

- **Timers.** Timers are a set of names: starting one adds it to the set, and stopping one removes it. RTO values, RTT measurement and back-off are not modelled, because they need the clock.
- **Randomness.** The random initial TSN and the state cookie that `handle_init` generates are parameters (`randomTsn`, `freshCookie`).
- **Chunk formats and the CRC.** The chunk codecs and CRC32c are parameters of the packet codec, because `src/chunk/*` and the CRC crate are not part of this model. A chunk encoder that fails is taken to append nothing (`AppendChunks`). The source's `c.marshal_to(writer)?` (`src/packet.rs:285`) can leave the bytes it had already written in the caller's writer, so `MarshalTo`'s writer on the error path is not modelled.
- **Stream reconfiguration (RFC 6525).** `handle_reconfig`, `send_reset_request`, `reset_streams_if_any` and the reconfig parts of `gather_outbound` are not modelled, because their request and response tracking lives in streams and chunks that are not part of this model. Stream resets from the pending queue are only collected as stream identifiers.
- **Stream internals.** A stream is modelled by the byte count of its reassembly queue. Reassembly, ordering, message assembly and the stream's own API are not part of this model.
- **Events.** Stream and association events are kept as a sequence; their delivery is not modelled.
- **The pending queue.** Its internals (ordered and unordered sub-queues, message selection) are modelled as one sequence of chunks.
- `check_partial_reliability_status`: not modelled, because it needs the stream's reliability settings and the clock. Chunks are abandoned only through their `abandoned` flag.
- **The polling layer.** `poll`, `poll_transmit`, `handle_timeout`, `handle_event` and the `gather_outbound*` family are not modelled, and so fast-retransmit bundling (`src/association/mod.rs:2142-2170`) is left out too. They marshal the queued packets into datagrams with the clock; the packets they draw from are modelled.
- **Statistics and display.** Statistics counters, `Display`, and `get_gap_ack_blocks_string` are diagnostics only.
- **Small helpers.** `awake_write_loop` is a no-op. `is_idle`, `buffered_amount` and `on_retransmission_failure` are one-line accessors or notifications that change no modelled state.
- **Errors.** On an error the handlers return at once, as in the source; state changed before the error stays changed and is stated in the contracts only as far as the caller needs.
- **Integer widths.** `nsent` is a `nat` (`u32` in the source, which cannot reach 2^32 sends in practice). The `usize`-to-`u32` casts of byte counts are modelled on `nat` except where the source's `u32` arithmetic is written out in `GetMyReceiverWindowCredit` and `OnCumulativeTsnAckPointAdvanced`. The `i64` total of `handle_sack` is a `nat` (`TotalBytesAcked`).
- `inflight_queue_length`: `shutdown` reads this field, but `src/association/mod.rs` only ever sets it to 0. The model keeps the field, no method changes it, and `Shutdown` is stated in terms of it. This is not claimed as a finding, because code outside that file could write it.
- Associations.Association.HandleSack: states the guards, the error exits, the ack point, rwnd, the abandoned-chunk state, the shutdown steps and the conservation of bytes. It does not state the in-flight queue's new contents, the RTT mark or the window after the SACK. Those are stated one level down: `ProcessSelectiveAck` for the acks (`CumulativeFold` and `GapFold`), `SackCumulative` for cwnd, and `SackRecovery` for fast retransmit (`FastRetransmitted`). Carrying the folds up through the handler takes its proof past the verifier's resource limit.
- Associations.Association.AcceptSack: does not state the in-flight queue's new contents, the RTT mark or the window, for the same reason as `HandleSack`.
- Associations.Association.SackCumulative: does not state the in-flight queue's new contents or the RTT mark, for the same reason as `HandleSack`. It does state the ack point, rwnd, T3-rtx and cwnd.
- Associations.Association.HandleForwardTsn: does not model the per-stream notifications of `src/association/mod.rs:1408-1421`. The source calls `handle_forward_tsn_for_ordered` on each reported stream and `handle_forward_tsn_for_unordered` on every stream, and these drop the abandoned chunks from the reassembly queues. The model leaves `streams` unchanged, so after a FORWARD TSN its byte counts can be higher than the source's. `GetMyReceiverWindowCredit` and `MayAccept` for later DATA then see less credit than the source does. For example, when abandoned chunks of an ordered stream fill the receive buffer, the source frees their bytes and the model keeps the credit at 0. How much a notification frees depends on the reassembly queue's contents, which are not part of this model.
- Associations.Association.SelectiveAck: states only the errors of `process_selective_ack`, the queue length and the conservation of bytes. The full effect is `ProcessSelectiveAck`.
- Associations.Association.constructor: requires that the source's `clamp` for the initial cwnd does not panic, that is, that 4*MTU is at least 4380. `New` models the panic for the other configurations.
- Associations.Association.MovePendingDataChunkToInflightQueue: requires a non-empty pending queue, because its only caller peeks the head first. The `None` path of the source is not modelled.
- Associations.ListStreams: the source builds the list from a `HashMap`, whose iteration order is unspecified; the contract states the entries but not their order.
- Associations.Association.PopPendingDataChunksToSend: requires that the TSNs about to be handed out are not in flight and that the in-flight queue holds fewer than 2^32 chunks. Both are facts of the TSN space that the source takes for granted.
- PayloadQueues.PayloadQueue.PushNoCheck: requires that the TSN is not held, because every caller checks this first (`can_push`, or a freshly generated TSN).
- PayloadQueues.PayloadQueue.UpdateSortedKeys: modelled as inserting the new key at its serial place. This equals the source's full re-sort only when the list was already sorted, and the model assumes that rather than proving it. `sna32lt` is an order only within half the TSN circle (`Serial.LtNotTransitive`). Nothing bounds the spread of the in-flight TSNs below 2^31, and a repeated INIT moves `peer_last_tsn` without emptying the receive queue. `PlacementKeepsOrder` and `AcceptedPlacementKeepsOrder` show that the insertion keeps a sorted window sorted.

## Findings

| source | as written | input that shows it | evidently intended | confidence | as-written member | corrected member |
|---|---|---|---|---|---|---|
| src/queue/payload_queue.rs:98-102 | The gap offset is `tsn - cum` only when `tsn >= cum` as plain integers, and 0 otherwise. | Cumulative TSN 0xFFFFFFFF with TSN 1 received: the block is [0-0] where it should be [2-2]. | Offsets use serial (wrapping) subtraction, as RFC 1982 requires across the TSN wrap. | not executed | GapAcks.GapOffsetAcrossWrap | PayloadQueues.PayloadQueue.CorrectedGapAckBlocks |
| src/association/mod.rs:316 | `(2 * mtu).clamp(4380, 4 * mtu)` panics when 4*mtu < 4380. | A maximum payload size of 972 (MTU 1000): clamp(2000, 4380, 4000) panics. | min(4*MTU, max(2*MTU, 4380)) from section 7.2.1 of RFC 4960, which gives 4000 here. | not executed | Congestion.InitialCwndPanicsOnSmallMtu | Congestion.InitialCwndBounds |
| src/association/mod.rs:2452 | A chunk is bundled when `bytes_in_packet + user_data.len() <= mtu`, which counts neither the 16-byte DATA header nor padding, and an empty group is flushed when the first chunk alone is too big. | Two 600-byte chunks with MTU 1228 make one 1244-byte packet; a single 1217-byte chunk makes an empty packet first. | Count each chunk's full DATA size, and never emit an empty packet. | not executed | Bundling.AsWrittenExceedsMtu | Bundling.CorrectedBundling |
