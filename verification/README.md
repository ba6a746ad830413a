# Media relay protocols: a verified model

The model covers the media layer of the relay: how RTP packets are cut, reordered and put together
again, how RTMP messages are cut into chunks and composed, the AMF0 codec, receiver reports, the
fan-out from one pusher to many players, the asynchronous and the coalescing writer, and the complex
RTMP handshake. `dafny verify dfyconfig.toml` checks everything.

## How it is built

- **Bytes.** `Bytes` has machine integers, byte orders and lists of lists; `Wire` reads numbers in
  the middle of an input.
- **RTP.** `SeqNumber` is the wrapping order. `RtpUnpacking` says what one unpacking attempt does to a
  run of packets, `RtpReassembly` what the container does to a list. `RtpPacketLists`, `RtpUnpackers`
  and `RtpUnpackContainers` are the mutable linked list, unpackers and container, proved equal to
  them. `RtpReference` is a container on unbounded packet indices; `RtpRefinement` shows that the
  wrapping one keeps in step with it while packets are live. On the reference `RtpReordering` proves
  "sort, then unpack", `RtpCapacity` exactly how much room that takes, `RtpRoundTrip` that packing,
  reordering and unpacking are the identity on NAL units. `AvcNals` has the framings of NAL units,
  `RtpAac` the payloads of AAC frames, `RtpWear` what fragmented AAC units leave of a container,
  `RtpLayouts` which bytes are which frames.
- **RTMP.** `RtmpDivider` cuts messages into chunks. `RtmpComposer` is the composer on values, one chunk
  a step; `RtmpChunkComposer` has the mutable streams and loop, proved equal to it. `RtmpBuffers` is
  about the buffers on any input, `RtmpGrowth` an input that breaks them, `RtmpAggregates` about
  aggregate messages. `RtmpInterleaving` is a sender that interleaves chunk streams at will,
  `RtmpRoundTrip` what its receiver gets. `RtmpMessages` has messages of every type, `RtmpMisreading`
  the timestamp that the two sides read differently, `RtmpRelative` the headers that say only what
  differs. `Amf0`, `Amf0RoundTrip` and `Amf0Arrays` are the command codec, `RtmpMetadata` the stream
  metadata, `Handshake` the complex handshake, `HandshakeExchange` what its two sides can check.
- **Relay.** `FanOut` is the pusher, its GOP cache and its players as a state machine over the sections
  under one lock, `FanOutGaps` what a joining player misses, `FanOutDelivery` what a registered one
  gets; `RtspPushers` has the objects as one thread sees them; `RtspRtp` finds key frames.
  `AsyncWriter` is the write loop as a state machine, `AsyncTraces` what its runs accept and write,
  `AsyncHangs` the calls of it that never return, `BufWriters` the coalescing writer, `RrProducers`
  the receiver report counters, `RrIntervals` what a report says of its interval.

## Where the code differs from what one might expect

- `CompareSeq` is not an order: it is right within 16384 and fails beyond (`CompareSeqExact`,
  `OrderIsNotTransitive`). "Live" packets are those within this window.
- The AAC unpacker takes one packet too few off the size counter for every fragmented unit, so a
  container of size `maxSize` is worn out after that many of them: it goes on to deliver frames of
  one packet, but nothing can wait in it any more, so it no longer reorders and loses every unit in
  fragments (`WearsDown`, `WornRun`, `FragmentsLost`, `HalvesWearOut`).
- Fragments do not carry all header bits: AVC units need the forbidden bit 0, HEVC units a fixed layer
  and temporal id, to come back (`RestoredExact`). Whole units need a type the receiver knows.
- AVCC splitting reports an error when the last unit is empty (`SplitAvccExact`).
- The divider writes an extended timestamp above 0xFFFFFF, the composer looks for one from 0xFFFFFF on
  (`ExtendedExact`). The composer's timestamp flag is shared by all chunk streams (`TimestampsExact`).
- A chunk size that grows over a message in progress makes the composer read past its buffer
  (`BreaksExact`, `GrowthBreaks`), and so does a chunk that repeats the header of an aggregate
  (`UsedUpBreaks`). A new chunk size behind an aggregate is read from the wrong bytes (`SizeMisread`).
- `WriteObject` writes long strings that `ReadObject` refuses (`ObjectExact`). An array without an end
  marker that stands last in an object takes the object's (`NestedExact`).
- The loss fraction is computed without a sign and in 32 bits (`FractionExact`, `SurplusMisread`).
- A player that joins misses the packets broadcast between its copy of the cache and its registration
  (`FirstLive`).
- `Flush` can wait for ever, and so can a call on a full channel, when the connection is closed at the
  wrong moment (`FlushReturnsExact`, `SendReturnsExact`, `FlushHangs`).

## Model

| member | source | states |
|---|---|---|
| Bytes.RoundTrip24 | lal/bele/bele.go:125-129 | Three-byte big-endian numbers are read back as written, whatever follows. |
| Bytes.RoundTrip32 | lal/bele/bele.go:131-141 | Four-byte numbers of both byte orders are read back as written, whatever follows. |
| SeqNumber.NearOrder | rtprtcp/rtp.go:45-86 | For packets less than 16384 apart, comparing and subtracting their wrapped numbers gives the order and the difference of the unwrapped ones. |
| SeqNumber.CompareSeqExact | rtprtcp/rtp.go:45-63 | For packets less than a cycle apart, exactly when the comparison is right: within 16384 inside a cycle, within 49152 across a rollover. |
| SeqNumber.OrderIsAntisymmetric | rtprtcp/rtp.go:45-86 | Both functions agree on who is ahead on all inputs, swapping the arguments reverses them, and adding the difference gets back. |
| SeqNumber.OrderIsNotTransitive | rtprtcp/rtp.go:45-63 | Three numbers can each be ahead of the next in a circle, so the order needs a window. |
| SeqNumber.SuccessorExact | rtprtcp/rtp.go:66-86 | A difference of 1 means "directly after", with no window at all. |
| RtpPackets.HeaderRoundTrip | rtprtcp/rtp_packet.go:79-133 | Any 12 bytes parse to a header that packs back into the same 12 bytes. |
| RtpPackets.WireRoundTrip | rtprtcp/rtp_packet.go:79-144 | A packet that was built parses back from its wire bytes, header and payload. |
| RtpPackets.ParsedRoundTrip | rtprtcp/rtp_packet.go:115-144 | Parsing succeeds exactly from 12 bytes on, and the parsed packet holds the very bytes. |
| RtpPacketLists.InsertPoint | rtprtcp/rtp_unpack_container.go:99-125 | Where the walk over the list stops is where sorted insertion puts the packet, or drops it as a duplicate. |
| RtpPacketLists.RtpPacketList.InsertSorted | rtprtcp/rtp_unpack_container.go:99-125 | The linked list afterwards holds the old packets with the new one inserted in sequence order; the size counter grows even for a duplicate. |
| RtpPacketLists.RtpPacketList.CutAfter | rtprtcp/rtp_unpacker_avc_hevc.go:181-182 | Cutting the list behind an item leaves exactly the packets after it. |
| RtpUnpackers.RtpUnpacker.TryUnpackOneAvcHevc | rtprtcp/rtp_unpacker_avc_hevc.go:42-196 | One attempt on the linked list does what the attempt on the sequence of packets does: frames delivered, packets cut off, size counter, result. |
| RtpUnpackers.RtpUnpacker.ConvertStapa | rtprtcp/rtp_unpacker_avc_hevc.go:63-97 | The two passes over an aggregation packet succeed exactly when its lengths fit, and give its units with 4-byte lengths. |
| RtpUnpackers.RtpUnpacker.FindFuaEnd | rtprtcp/rtp_unpacker_avc_hevc.go:99-115 | The walk finds the end fragment reached over consecutive middle fragments, if there is one. |
| RtpUnpackers.RtpUnpacker.AssembleFua | rtprtcp/rtp_unpacker_avc_hevc.go:119-180 | The buffer measured in one walk and filled in another is the length, the rebuilt header and all fragment bodies in order. |
| RtpUnpackers.RtpUnpacker.TryUnpackOneAac | rtprtcp/rtp_unpacker_aac.go:34-167 | One AAC attempt on the linked list does what the attempt on the sequence of packets does, including the size counter that is one too high after fragments. |
| RtpUnpackers.RtpUnpacker.ParseAu | rtprtcp/rtp_unpacker_aac.go:174-210 | The loop over the AU headers finds every unit's size and position. |
| RtpUnpackers.RtpUnpacker.CollectFragments | rtprtcp/rtp_unpacker_aac.go:79-143 | The walk collects exactly the fragments that add up to the announced size, under the source's conditions on sequence number, timestamp, count and size. |
| RtpUnpackContainers.RtpUnpackContainer.TryUnpackOne | rtprtcp/rtp_unpack_container.go:143-150 | Delivers one frame and records its sequence number, or changes nothing. |
| RtpUnpackContainers.RtpUnpackContainer.TryUnpackOneSequential | rtprtcp/rtp_unpack_container.go:128-139 | The same, but only when the first packet follows the last delivered one. |
| RtpUnpackContainers.RtpUnpackContainer.Feed | rtprtcp/rtp_unpack_container.go:39-82 | Feeding the container over the linked list is feeding the container on values: stale packets, insertion, greedy delivery, eviction. |
| RtpReassembly.BufferBound | rtprtcp/rtp_unpack_container.go:39-82 | Over every run of parseable packets, any order, loss and duplicates, for all three codecs: list length <= size <= maxSize, and eviction never meets an empty list. |
| RtpLocality.TryRunPrefix | rtprtcp/rtp_unpacker_avc_hevc.go:42-196 | An attempt depends only on the packets it takes: prefixes and longer runs unpack alike. |
| RtpLocality.PartOfFrame | rtprtcp/rtp_unpacker_avc_hevc.go:99-186 | No proper beginning of a frame unpacks. |
| RtpLocality.FrameAhead | rtprtcp/rtp_unpacker_avc_hevc.go:42-196 | A frame unpacks the same whatever follows it. |
| RtpLocality.FrameShapeExact | rtprtcp/rtp_unpacker_avc_hevc.go:42-196 | AVC/HEVC frames are exactly: one single-unit packet, one aggregation packet whose lengths fit, or a start fragment, middle fragments and an end fragment. |
| RtpLayouts.LonePacket | rtprtcp/rtp_unpacker_avc_hevc.go:52-61 | From the bytes of a lone packet: the payload is a unit, with its 4-byte length and the time in milliseconds, exactly for the types 0 to 23 of AVC and nine types of HEVC; of the others only AVC type 24 can unpack. Fed to an empty container it comes out at once. |
| RtpLayouts.AggregatedUnits | rtprtcp/rtp_unpacker_avc_hevc.go:63-97 | From the bytes: a packet of AVC type 24 with any units behind 2-byte lengths is one frame of these units with 4-byte lengths, and comes out of an empty container at once. |
| RtpLayouts.FragmentedUnit | rtprtcp/rtp_unpacker_avc_hevc.go:99-186 | From the bytes: fragments of AVC type 28 or HEVC type 49, with start and end bits at the ends and parts of any sizes, are one frame: the rebuilt header and all parts, at the time of the last packet. |
| RtpRefinement.FeedAgrees | rtprtcp/rtp_unpack_container.go:39-125 | One packet that is live (within 16384 of the delivery point and of everything buffered): the buffer on wrapping numbers keeps in step with a buffer on unwrapped packet indices. |
| RtpRefinement.WrappingRefinesUnbounded | rtprtcp/rtp_unpack_container.go:39-150 | The same over every run, with losses, duplicates and any number of rollovers. |
| RtpReordering.DeliveryOrder | rtprtcp/rtp_unpack_container.go:39-150 | Over every live run: what is delivered is a list of whole frames, each after the end of the one before, so no packet is in two frames; what is buffered is later, sorted, without duplicates; the point reached only moves forward. |
| RtpReordering.Reordering | rtprtcp/rtp_unpack_container.go:39-150 | The buffer sorts: the first packet first, every packet timely and with room to wait, then after any arrivals (repeats allowed) exactly the frames complete together with all earlier packets are out, and the rest waits. |
| RtpReordering.AllDelivered | rtprtcp/rtp_unpack_container.go:39-150 | Once all packets have arrived the output is the whole stream's and the buffer is empty. |
| RtpCapacity.OccupancyExact | rtprtcp/rtp_unpacker_aac.go:98-143 | The size counter exactly: the packets that wait, and one more for ever for each AAC unit that came in fragments. |
| RtpCapacity.CapacityExact | rtprtcp/rtp_unpack_container.go:60-81 | For packets that arrive once each, in any order, the first first: the buffer takes exactly the stream's frames if and only if the counter never passes the limit while a packet has to wait. |
| RtpCapacity.InOrderExact | rtprtcp/rtp_unpack_container.go:60-81 | In order and without loss: all frames come out if and only if the limit leaves room for each frame but its last packet, on top of one slot for each AAC unit that came in fragments. |
| RtpCapacity.InOrderDelivery | rtprtcp/rtp_unpack_container.go:39-82 | With that room, the wrapping buffer delivers an in-order stream completely. |
| RtpReordering.UntimelyExact | rtprtcp/rtp_unpack_container.go:39-95 | After such arrivals, of the packets still to come less than a cycle away, the container drops those outside the window of the comparison as stale, and no others. |
| RtpWear.WearsDown | rtprtcp/rtp_unpacker_aac.go:98-143 | After an in-order stream with that room nothing waits, and the size counter stands at the number of units that came in fragments. |
| RtpWear.WornRun | rtprtcp/rtp_unpack_container.go:39-82 | When it stands at the limit with nothing waiting, that stays so over every further run of packets: each packet is treated alone, so exactly frames of one packet that are not stale come out. |
| RtpWear.FragmentsLost | rtprtcp/rtp_unpacker_aac.go:79-143 | So every AAC unit that comes in parts is lost from then on. |
| RtpWear.HalvesExact | rtprtcp/rtp_unpack_container.go:60-81 | Of AAC units in two packets each, in order and none lost, all come out if and only if there are no more of them than the limit. |
| RtpWear.HalvesWearOut | rtprtcp/rtp_unpack_container.go:60-81 | For every limit, as many such units leave the container in that state. |
| RtpAac.Pack | rtprtcp/rtp_packer_payload_aac.go:22-49 | The payload of a frame: one AU header with its size, and the frame. |
| RtpAac.FrameRoundTrip | rtprtcp/rtp_packer_payload_aac.go:22-49 | A frame through packer and unpacker comes back if and only if it is shorter than 8192 bytes. |
| RtpAac.FragmentsRoundTrip | rtprtcp/rtp_unpacker_aac.go:79-143 | A frame sent in several packets comes back whole, with the size counter going down by one too few. |
| RtpAac.AacShapeExact | rtprtcp/rtp_unpacker_aac.go:79-143 | Several AAC packets are one frame if and only if each has one AU header with the same size and timestamp and their parts reach that size with the last packet, neither before nor beyond. |
| RtpAac.SeveralRoundTrip | rtprtcp/rtp_unpacker_aac.go:152-167 | Several frames in one packet come back in order, as one step that takes the packet. |
| RtpAac.FrameTime | rtprtcp/rtp_unpacker_aac.go:152-167 | Frame i of such a packet has the time of the packet in milliseconds plus the whole milliseconds that i times 1024 samples last, modulo 2^32. |
| RtpAac.FrameDistance | rtprtcp/rtp_unpacker_aac.go:152-167 | From one frame to the next it is 1024 samples in milliseconds, rounded down or up. |
| AvcNals.IterateNaluAvcc | lal/avc/avc.go:456-484 | The loop hands out the units of the AVCC split and reports its error. |
| AvcNals.SplitAvccExact | lal/avc/avc.go:416-422 | Splitting undoes joining with 4-byte lengths if and only if there is a unit and the last one is not empty. |
| AvcNals.SplitAvccOnly | lal/avc/avc.go:456-484 | And whatever splits without an error is the join of the units that come out, the last of them not empty. |
| AvcNals.StapaExact | rtprtcp/rtp_unpacker_avc_hevc.go:63-97 | An aggregation packet converts if and only if it is the join of units with 2-byte lengths, and then into exactly these. |
| AvcNals.IterateNaluStartCode | lal/avc/avc.go:380-399 | The scan finds the start code of the specification. |
| AvcNals.FoundAt | lal/avc/avc.go:380-399 | What the scan finds is the earliest start code from the start on, with all its zeros; otherwise there is none. |
| AvcNals.IterateNaluAnnexb | lal/avc/avc.go:424-454 | The loop hands out the units of the Annex B split and reports its error. |
| AvcNals.SplitIsSeparable | lal/avc/avc.go:424-454 | Whatever the input, units handed out without an error have bytes, no start code inside, and none but the last ends in zero. |
| AvcNals.SplitAnnexbExact | lal/avc/avc.go:405-454 | Splitting undoes joining with start codes (two or more zeros and a one) if and only if the units are of that kind. |
| AvcNals.SplitAnnexbOnly | lal/avc/avc.go:405-454 | And whatever splits without an error is, behind bytes without a start code, the units that come out behind start codes; without a start code there is always an error. |
| RtpPacking.RtpPackerPayloadAvcHevc.DoPackNal | rtprtcp/rtp_packer_payload_avc_hevc.go:101-214 | The fragmenting loop returns one payload or the fragments of the specification, and ends. |
| RtpPacking.RtpPackerPayloadAvcHevc.Pack | rtprtcp/rtp_packer_payload_avc_hevc.go:63-99 | All units of the input in their framing, without access unit delimiters, are packed in order; framing errors and sizes that are not positive give nothing. |
| RtpPacking.FragmentHeads | rtprtcp/rtp_packer_payload_avc_hevc.go:136-211 | Every fragment has the header for its place: start on the first, end on the last, neither in between, never both. |
| RtpPacking.FragmentsCarryAll | rtprtcp/rtp_packer_payload_avc_hevc.go:136-211 | The fragment bodies put together are the unit behind its header: no byte lost, repeated or moved. |
| RtpPacking.PayloadsFit | rtprtcp/rtp_packer_payload_avc_hevc.go:101-214 | No payload is longer than the limit, and a unit that does not fit gives at least two fragments. |
| RtpLayouts.DelimiterExact | rtprtcp/rtp_packer_payload_avc_hevc.go:84-96 | Of all units exactly those of type 9 of AVC or 35 of HEVC are left out. |
| RtpPacking.RtpPacker.GenSeq | rtprtcp/rtp_packer.go:75-79 | Returns the number and moves to its wrapping successor. |
| RtpPacking.RtpPacker.Pack | rtprtcp/rtp_packer.go:58-73 | Consecutive numbers, one timestamp, the marker on the last packet only. |
| RtpRoundTrip.FragmentsUnpack | rtprtcp/rtp_unpacker_avc_hevc.go:99-186 | Fragments of a unit unpack to one frame: the unit with the header bits that fragments carry. |
| RtpRoundTrip.RestoredExact | rtprtcp/rtp_packer_payload_avc_hevc.go:136-211 | That is the unit itself exactly when the bits that fragments drop have their fixed values. |
| RtpRoundTrip.WholeUnit | rtprtcp/rtp_unpacker_avc_hevc.go:197-348 | A unit sent whole comes back exactly when its type is one the receiver takes as a single unit. |
| RtpRoundTrip.UnitRoundTrip | rtprtcp/rtp_packer_payload_avc_hevc.go:101-214 | One unit through packer and unpacker comes back if and only if it survives in one of these two ways. |
| RtpRoundTrip.ItemsAreFrames | rtprtcp/rtp_unpacker_avc_hevc.go:42-196 | The packets of any list of units are a stream of frames, one for each unit, and the frames are the units. |
| RtpRoundTrip.SentTiling | rtprtcp/rtp_packer.go:58-79 | What a packer sends over any calls is such a stream with consecutive wrapping numbers. |
| RtpRoundTrip.VideoRoundTrip | rtprtcp/rtp_packer_payload_avc_hevc.go:63-214 | Access units in, packets in any order with repeats, access units out: every unit except delimiters, whole, in order, with its time. |
| RtpRoundTrip.VideoInOrder | rtprtcp/rtp_packer_payload_avc_hevc.go:63-214 | In order and without loss, room for the fragments of each unit but one is enough for that. |
| RtmpDivider.Message2Chunks | rtmp/chunk_divider.go:119-154 | The loop with its fixed output buffer writes the chunks of the specification, and they never outgrow (chunkSize + 18) bytes a chunk. |
| RtmpChunkComposer.Stream.Reserve | rtmp/stream.go:64-77 | The free space doubles until it covers the length; the failing case is exactly where the source's loop would not end. |
| RtmpChunkComposer.Stream.ReadMessageHeader | rtmp/chunk_composer.go:89-124 | Reads the fields of each header format into the stream and reserves for formats 0 and 1. |
| RtmpChunkComposer.Stream.ReadExtendedTimestamp | rtmp/chunk_composer.go:134-150 | Reads the extended timestamp by the composer's rule, for all four formats, wrapping at 32 bits. |
| RtmpChunkComposer.Stream.SplitAggregate | rtmp/chunk_composer.go:186-238 | The loop over an aggregate hands on the sub-messages of the specification and stops where a length does not fit. |
| RtmpChunkComposer.ChunkComposer.Finish | rtmp/chunk_composer.go:170-250 | A completed message sets the chunk size, gets its timestamp, is handed on and cleared; a message too long is an error; no other stream changes. |
| RtmpChunkComposer.ChunkComposer.ReadChunk | rtmp/chunk_composer.go:59-251 | The loop body on the mutable streams takes the step of the specification, results and new state. |
| RtmpChunkComposer.ChunkComposer.RunLoop | rtmp/chunk_composer.go:54-252 | The loop over any input returns what the run of the specification returns: all callbacks in order and why it ends. |
| RtmpBuffers.ReserveRoomy | rtmp/stream.go:64-77 | From a roomy stream the doubling starts at 1 or more and ends, and leaves more free space than asked for, within 64 MB. |
| RtmpBuffers.StepExact | rtmp/chunk_composer.go:59-251 | One chunk of any bytes on any streams: the program fails exactly when format 0 or 1 announces a length for which no space is found, or format 2 or 3 brings a payload that reaches behind its buffer; otherwise every stream that no aggregate has used up keeps room for its message. |
| RtmpBuffers.RunExact | rtmp/chunk_composer.go:54-252 | Every run over every input keeps that invariant to its end, and fails exactly when its last chunk does. |
| RtmpBuffers.BreaksExact | rtmp/chunk_composer.go:152-168 | On a stream that no aggregate has used up, only a format 2 or 3 chunk fails, exactly when part of a message no longer than a chunk is already there and the rest does not fit. |
| RtmpBuffers.RunRoomy | rtmp/stream.go:64-77 | Every run without aggregates keeps each buffer within 64 MB. |
| RtmpBuffers.NeverBroken | rtmp/chunk_composer.go:152-168 | No run fails in which no chunk follows an aggregate on its chunk stream and the chunk size never changes to one that a message in progress fits into. |
| RtmpGrowth.GrowthBreaks | rtmp/chunk_composer.go:152-168 | An input with true lengths, in which the chunk size grows while a message is in progress, makes the composer read past its buffer. |
| RtmpAggregates.SplitJoined | rtmp/chunk_composer.go:186-238 | Joined sub-messages are handed on one by one with their payloads and headers, timestamps at the aggregate's plus the distance from the first, modulo 2^32. |
| RtmpAggregates.SplitOnlyJoined | rtmp/chunk_composer.go:186-238 | A body accepted without an error is the join of sub-messages, and all of it is used. |
| RtmpAggregates.SplitExact | rtmp/chunk_composer.go:186-238 | A body is accepted if and only if it is such a join. |
| RtmpAggregates.SplitStops | rtmp/chunk_composer.go:186-238 | Of a body that breaks off, the sub-messages before the place are handed on, and one more if only its size field is missing; then comes the error. |
| RtmpParsing.FirstChunk | rtmp/chunk_composer.go:59-150 | On any stream for which space is found, the header that starts a message leaves the header and timestamp that were written, and that space. |
| RtmpParsing.ExtendedParses | rtmp/chunk_composer.go:134-150 | The composer looks for an extended timestamp exactly where the divider wrote one, for every timestamp but 0xFFFFFF. |
| RtmpInterleaving.EventStep | rtmp/chunk_composer.go:59-251 | Whatever the other streams are doing, a chunk of one stream moves that stream on and completes what the sender completes. |
| RtmpInterleaving.RunTracks | rtmp/chunk_composer.go:54-252 | The same over all chunks of any interleaving. |
| RtmpRoundTrip.Interleaving | rtmp/chunk_composer.go:54-252 | Any interleaving of chunk streams at any chunk size: the composer hands on exactly the messages completed, in the order of completion, and then waits for more. |
| RtmpRoundTrip.OwnOrder | rtmp/chunk_composer.go:170-246 | On each chunk stream the messages come out whole, with length, type and stream id, in the order begun; only one still in progress is missing. |
| RtmpRoundTrip.TimestampsExact | rtmp/chunk_composer.go:57-57 | All timestamps are right if and only if each completion either has a message begun since the last completion or a timestamp of 0, because all streams share one flag. |
| RtmpRoundTrip.CrossingExact | rtmp/chunk_composer.go:176-182 | Two messages of two chunks each, begun and completed in the same order: the second is delivered with twice its timestamp, which is right if and only if that is 0. |
| RtmpRoundTrip.StreamRoundTrip | rtmp/chunk_divider.go:119-154 | Messages cut into chunks one after the other come back with payloads, headers and timestamps. |
| RtmpMisreading.NeverWhole | rtmp/chunk_composer.go:134-168 | Once four payload bytes have been taken for a timestamp, whatever the bytes: the first thing handed on is never the whole message, because the input is four bytes short. |
| RtmpMisreading.Misread | rtmp/chunk_divider.go:109-114 | So a message of any length with the timestamp 0xFFFFFF never comes back. |
| RtmpMessages.ExtendedExact | rtmp/chunk_divider.go:109-154 | Every message at every chunk size comes back from its chunks if and only if its timestamp is not 0xFFFFFF and it is no aggregate (which comes back in parts). |
| RtmpMessages.WholeMessage | rtmp/chunk_divider.go:119-154 | All chunks of a message of any type, from any state in which its stream is idle, come down to the end of that message with its payload on its stream. |
| RtmpMessages.AllTypesRoundTrip | rtmp/chunk_composer.go:170-246 | Messages of every type one after the other, with the chunk size changing any number of times: ordinary ones come back whole, aggregates as their sub-messages, also on a chunk stream whose buffer aggregates have partly used up. |
| RtmpMessages.UsedUpBreaks | rtmp/chunk_composer.go:186-246 | The buffer of an aggregate is not cleared: one of more than half the first capacity, followed by a chunk that repeats its header, makes the composer read past it. |
| RtmpMessages.SizeMisread | rtmp/chunk_composer.go:170-175 | Behind an aggregate on the same chunk stream a new chunk size is read from what the aggregate has left in the buffer, or as 0 when the buffer has moved; both messages come out. |
| RtmpRelative.DeliveredExact | rtmp/chunk_divider.go:41-64 | A header that is understood gives the message its own timestamp exactly when it is in time: full ones always, relative ones up to 0xFFFFFF and less than that after the previous message (above it by one accidental difference), repeated ones when the previous message had not moved. |
| RtmpRelative.RelativeMessage | rtmp/chunk_composer.go:89-182 | A message in any number of chunks that follows another on an idle stream is delivered with what its header leaves out taken from there, and this timestamp. |
| RtmpRelative.RelativeExact | rtmp/chunk_divider.go:37-154 | Any such message, of any length, format and timestamp, comes back if and only if its header is in time. |
| RtmpRelative.RelativeRoundTrip | rtmp/chunk_divider.go:37-154 | Messages in any number of chunks, every header relative to the one before and in time, come back with payloads, headers and timestamps. |
| RtmpRelative.FirstRelative | rtmp/chunk_composer.go:59-182 | A message in one chunk with a relative header on a new chunk stream is delivered with its timestamp counted from 0 and stream id 0. |
| RtmpRelative.FirstBare | rtmp/chunk_composer.go:59-182 | A chunk without a message header on a new chunk stream is at once delivered as an empty message of type 0 at time 0. |
| Amf0.WriteObject | rtmp/amf0.go:142-172 | The loop writes the bytes of the specification, and fails exactly on a value that is neither string, number nor boolean. |
| Amf0.ReadObjectLoop | rtmp/amf0.go:254-317 | The loop returns what the specification of the object reader returns. |
| Amf0.ReadArrayLoop | rtmp/amf0.go:323-384 | The loop returns what the specification of the array reader returns, and ends for every count. |
| Amf0.ReadObject | rtmp/amf0.go:254-317 | On any bytes, what is reported as consumed lies within the input. |
| Amf0.ReadArray | rtmp/amf0.go:323-384 | On any bytes, what is reported as consumed lies within the input. |
| Amf0RoundTrip.StringExact | rtmp/amf0.go:105-123 | Reading a written string gives it back with exactly the written length, whatever follows, if and only if it is shorter than 2^32 bytes. |
| Amf0RoundTrip.NumberAt | rtmp/amf0.go:224-232 | A written number is read back from where it stands, byte for byte. |
| Amf0RoundTrip.BooleanAt | rtmp/amf0.go:234-242 | A written boolean is read back from where it stands. |
| Amf0RoundTrip.NullAt | rtmp/amf0.go:244-252 | A written null is read back from where it stands. |
| Amf0RoundTrip.WrittenMarkers | rtmp/amf0.go:98-172 | What is written starts with the marker of its type: 0, 1, 2, 3, 5 or 12; objects end with 0, 0, 9. |
| Amf0RoundTrip.MarkersExact | rtmp/amf0.go:207-252 | On any bytes each reader takes exactly its own marker and refuses every other as such. |
| Amf0RoundTrip.PairsMarkersExact | rtmp/amf0.go:254-398 | The same for objects, arrays and either of them, whatever stands inside. |
| Amf0RoundTrip.ObjectExact | rtmp/amf0.go:142-172 | Reading a written object gives it back with exactly the written length, whatever follows, if and only if its keys and string values are shorter than 65536 bytes. |
| Amf0RoundTrip.CommandRoundTrip | rtmp/amf0.go:98-172 | A whole command, written argument by argument, is read back argument by argument. |
| Amf0RoundTrip.ArrayPrefixExact | rtmp/amf0.go:323-384 | An array is read alike from every input sharing the bytes it consumed, except exactly when it had no end marker and one follows. |
| Amf0RoundTrip.ObjectPrefix | rtmp/amf0.go:254-317 | An object, with its nested arrays, is read alike from every input sharing the bytes it consumed. |
| Amf0Arrays.ArrayExact | rtmp/amf0.go:323-384 | An ECMA array is read back, null fields left out, with exactly its bytes consumed, whatever follows, if and only if its keys and strings are shorter than 65536 bytes and no end marker follows one that has none of its own. |
| Amf0Arrays.NestedExact | rtmp/amf0.go:254-317 | An object with null fields and arrays is read back likewise if and only if all keys and strings are that short and no array without an end marker stands last, where it takes the object's. |
| RtmpMetadata.BuildMetadata | rtmp/metadata.go:64-106 | Writes the name and an object with the fields that are given, in order, and the version; it never fails. |
| RtmpMetadata.MetadataExact | rtmp/metadata.go:17-34 | An object under a name, with or without "@setDataFrame" in front, is parsed back with exactly its bytes consumed, whatever follows, if and only if its keys and strings are shorter than 65536 bytes. |
| RtmpMetadata.MetadataArrayExact | rtmp/metadata.go:17-34 | The same for metadata in an array, with and without its end marker. |
| RtmpMetadata.MetadataNestedExact | rtmp/metadata.go:17-34 | The same for an object with null fields and arrays. |
| RtmpMetadata.BuiltExact | rtmp/metadata.go:17-106 | What is built is parsed back field by field if and only if the name of the encoder is that short. |
| RtmpMetadata.BuiltFound | rtmp/amf0.go:61-68 | Whoever parses what was built finds exactly the fields that were given under their names. |
| RrProducers.RrProducer.FeedRtpPacket | rtprtcp/rtcp_rr_producer.go:44-63 | Updates all counters as specified. |
| RrProducers.RrProducer.Produce | rtprtcp/rtcp_rr_producer.go:70-106 | Reports fraction, loss, cycles and extended number as specified and starts the next interval. |
| RrProducers.NeverBackExact | rtprtcp/rtcp_rr_producer.go:53-62 | On any input the extended number goes back exactly where its 32 bits wrap. |
| RrProducers.TrueMaximum | rtprtcp/rtcp_rr_producer.go:44-63 | With each packet within 16384 of the highest before it, the extended number is the true index of the highest packet, below 2^32. |
| RrProducers.LossExact | rtprtcp/rtcp_rr_producer.go:75-81 | The reported loss is the number of missing indices less the duplicates and early packets, so it is exact if and only if there are none of these or nothing is missing. |
| RrProducers.FractionFormula | rtprtcp/rtcp_rr_producer.go:83-93 | What the unsigned arithmetic reports on all inputs: the loss modulo 2^24 and modulo the expectation, in 256ths of the expectation. |
| RrProducers.FractionExact | rtprtcp/rtcp_rr_producer.go:83-93 | On all inputs, exactly when that is the share that was lost: of a loss, when something was received and fewer than 2^24 were lost; of a surplus, when its wrapped value rounds down to 0. |
| RrProducers.SurplusMisread | rtprtcp/rtcp_rr_producer.go:70-106 | A run of three packets, the last a duplicate, reports a loss of one half where there is none. |
| RrProducers.FractionInRuns | rtprtcp/rtcp_rr_producer.go:70-106 | In every run, exactly when the reported fraction is right: with a loss, when it is below 2^24 packets; with a surplus, when its wrapped value rounds down to 0. |
| RrIntervals.IntervalExact | rtprtcp/rtcp_rr_producer.go:70-106 | In every run with reports at any time the next report has the true highest index and its cycles, and its fraction is that of an interval in which as many packets came as since the last report that was sent, and as many are due as the highest index has grown by since. |
| RtspRtp.PayloadFound | rtsp/rtp-parser.go:24-62 | The parser finds the payload behind contributing sources and extension and before padding. |
| FanOut.KeyPacketExact | rtsp/rtp-parser.go:64-85 | From the parts of a packet: for H.264 a key frame starts exactly with a start fragment of importance 3 of an IDR slice or a sequence parameter set, for H.265 with one of a key picture or a parameter set. |
| FanOut.KeyNeedsHeader | rtsp/rtp-parser.go:24-27 | A packet that is not video, is shorter than the fixed header or has another codec starts no key frame. |
| FanOut.LastKeyExact | rtsp/pusher.go:152-166 | Where the last key frame starts, said without recursion. |
| FanOut.StepInv | rtsp/pusher.go:118-227 | Every step of the session, pusher, joining and player threads keeps the invariant. |
| FanOut.GopCacheExact | rtsp/pusher.go:152-166 | In every state of every run the cache holds, in order, exactly the video packets processed since the last key frame start, or all if there is none. |
| FanOut.PlayerOrder | rtsp/pusher.go:181-218 | In every interleaving a player gets packets in order of arrival, only the last cached one possibly twice in a row, then live packets without a gap; sent and queued together are all it was given. |
| FanOutDelivery.ArrivedExact | rtsp/pusher.go:118-124 | In every run the packets that came in are those queued, in order. |
| FanOutDelivery.LiveExact | rtsp/pusher.go:181-218 | In every run a player that has been registered and not removed got exactly the packets from the one on that the pusher had reached when it was registered, up to the one it gets next, and it will get that one. |
| FanOutDelivery.RemovedExact | rtsp/pusher.go:181-227 | A player that has been removed gets no packet whose broadcast had not begun by then. |
| FanOutDelivery.CatchesUp | rtsp/pusher.go:126-218 | Nothing is ever stuck: from every state of every run the pusher and a registered player can go on until the player has sent its cached packets and every packet that has come in from the one on that the pusher had reached. |
| FanOutGaps.FirstLive | rtsp/pusher.go:181-218 | Where the live packets of a joining player begin, in every run: behind those it was given from the cache by one for every broadcast begun before it is registered, less one if the last cached packet was still to be broadcast. |
| FanOutGaps.Missed | rtsp/pusher.go:181-218 | The packets in between it never gets. |
| RtspPushers.Player.QueueRTP | rtsp/player.go:29-39 | Appends the packet to the queue. |
| RtspPushers.Player.Start | rtsp/player.go:41-63 | The loop sends everything that is queued, in order, until it would wait. |
| RtspPushers.Pusher.QueueRTP | rtsp/pusher.go:118-124 | Appends the packet to the queue and keeps the cache as wanted. |
| RtspPushers.Pusher.Start | rtsp/pusher.go:126-171 | Working off the queue gives every player all its packets in order and leaves the cache as wanted. |
| RtspPushers.Pusher.BroadcastRTP | rtsp/pusher.go:181-197 | Every registered player gets the packet exactly once, in whatever order the map is walked. |
| RtspPushers.Pusher.AddPlayer | rtsp/pusher.go:199-218 | The player gets the cache in order and is registered unless its name is taken. |
| AsyncWriter.StepInv | lal/connection/connection.go:286-438 | Every step of the caller, the write loop and close keeps the invariant on bytes, flushes and closing. |
| AsyncWriter.EveryRun | lal/connection/connection.go:286-438 | In every interleaving the wire carries a prefix of the accepted bytes; a flush returning on a connection that is not closed means all of them are there; close reports exactly once. |
| AsyncWriter.LoopAndCloseNeverBlock | lal/connection/connection.go:384-438 | In every run no send of the write loop and of close can block: exit signal, final report and flush answers always find room, so the loop can always answer a flush and end. |
| AsyncHangs.FlushReturnsExact | lal/connection/connection.go:307-318 | In every reachable state a waiting flush can return in some continuation if and only if the loop has not ended without an answer, is not about to, and has nothing to write that the closed connection refuses. |
| AsyncHangs.FlushHangs | lal/connection/connection.go:307-318 | For every channel size and writer, a flush that passes the closed check just before close can wait for ever. |
| AsyncHangs.SendReturnsExact | lal/connection/connection.go:286-318 | In every reachable state a call past the closed check can get into the channel or fail in some continuation if and only if the channel has room, the call may fail, or the loop can still come back to take a message. |
| AsyncTraces.AcceptedExact | lal/connection/connection.go:286-318 | In every run exactly the bytes of the calls that got into the channel are accepted, in order; a call that fails leaves no trace. |
| AsyncTraces.WireExact | lal/connection/connection.go:367-423 | In every run the wire holds the accepted bytes up to where the last attempt to write got, after a flush that succeeded all that were accepted before it. |
| AsyncTraces.CloseInOrder | lal/connection/connection.go:425-440 | In every run closing goes once through its steps in order, from whichever thread they come: flag, exit signal, connection, report. |
| AsyncWriter.WireOnlyGrows | lal/connection/connection.go:368-382 | What is on the wire stays, and nothing is added once the connection is closed. |
| BufWriters.Conserves | lal/base/bufwriter.go:52-108 | Over any calls, the blocks handed on and what is still buffered are all input, in order. |
| BufWriters.FullBlocks | lal/base/bufwriter.go:52-85 | Every block that writes hand on is at least as long as the buffer. |
| BufWriters.HeldExact | lal/base/bufwriter.go:52-85 | What a write leaves in the buffer: all of it while it fits, otherwise the rest after filling the buffer if that is less than a whole one; nothing is handed on before it has to be. |
| BufWriters.BlocksNotEmpty | lal/base/bufwriter.go:52-93 | No empty block is handed on, and a flush leaves nothing in the buffer. |
| BufWriters.BufWriter.Write | lal/base/bufwriter.go:52-85 | Hands on and keeps what is specified, without writing to a buffer that was handed on. |
| BufWriters.BufWriter.Flush | lal/base/bufwriter.go:87-93 | Hands on the buffered bytes, if any, and takes a new buffer. |
| Handshake.SignedVerifies | rtmp/handshake.go:272-285 | Putting the digest into a hello does not disturb what it is computed from. |
| Handshake.Agreement | rtmp/handshake.go:231-270 | Whatever the random bytes, the digest lies inside the hello behind the bytes that place it, and the peer finds it and never falls back to the simple mode. |
| Handshake.BothComplex | rtmp/handshake.go:124-213 | A client and a server of this implementation stay in the complex mode on both sides. |
| Handshake.WriteC0C1 | rtmp/handshake.go:124-139 | The buffer filled in place is the signed hello. |
| Handshake.ReadC0C1 | rtmp/handshake.go:173-214 | The buffer filled in place is S0, S1 and S2 for either mode. |
| HandshakeExchange.ServerAnswers | rtmp/handshake.go:173-214 | To a hello with a valid digest at either place, the later one first, the server sends version 3, its own signed hello and an S2 whose last 32 bytes are the code of the others under the key derived from that digest with the full server key. |
| HandshakeExchange.ServerEchoes | rtmp/handshake.go:191-196 | To a hello without a version or without a valid digest it sends a hello without a version, and the client's sent back. |
| HandshakeExchange.ReadS0S1 | rtmp/handshake.go:141-166 | C2, written over the buffer of C0 and C1, is as specified, whatever the buffer held. |
| HandshakeExchange.ClientGreets | rtmp/handshake.go:124-139 | C0 and C1 are version 3, time 0, the client version and random bytes, with a valid digest in the place that these name. |
| HandshakeExchange.ClientAnswers | rtmp/handshake.go:141-166 | C2 is signed with the key derived from the digest of a hello that the client knows, and is S1 otherwise. |
| HandshakeExchange.LatePlaceKnown | rtmp/handshake.go:231-270 | A hello signed at the later place is known by that digest, whatever stands at the other. |
| HandshakeExchange.ExchangeVerifies | rtmp/handshake.go:124-214 | Between a client and a server of this implementation each knows the other's hello by a digest, and S2 and C2 verify against them, whatever the time and the random bytes. |

## Left out

- RtpUnpackContainers.RtpUnpackContainer.Feed: takes packets whose payload has the bytes its own header announces; the source indexes past the end of shorter ones.
- RtpRoundTrip.VideoRoundTrip: timestamps are whole milliseconds and below 2^32 in clock ticks, with clock rates that are multiples of 1000; the source computes them in floating point.
- RtpReordering.Reordering: asks for the first packet first, arrivals within 16384 of the delivery point, and room to wait; `CapacityExact` shows that the room is necessary, `UntimelyExact` what becomes of later packets.
- RtmpMessages.AllTypesRoundTrip: full headers, a chunk size is not set behind an aggregate on the same chunk stream (`SizeMisread` says what happens there), and no more than 0xFD000000 bytes of aggregates follow each other on one, which keeps the buffer within 32 bits.
- RtmpRelative.RelativeRoundTrip: messages of one chunk stream, which neither set the chunk size nor are aggregates.
- RtmpMetadata.BuildMetadata: numbers are their eight bytes, and the version string is a parameter.
- FanOut.PlayerOrder: each player joins once; stopping and wake-ups are not modelled, and a packet is named by its position instead of a pointer.
- AsyncWriter.EveryRun: one calling thread; several callers could receive each other's flush answers.
- The receive buffers of the chunk streams are values held in a field, so that a callback's payload shares memory with the next message is not captured; output buffers, the list of packets and the coalescing buffer are arrays and objects.
- Callbacks are a log of what they are handed; a callback that returns an error or moves the read position of a message is not modelled.
- A stream buffer whose capacity would leave 32 bits counts as a failure of the program; only aggregates of several gigabytes get there.
- The interfaces that choose between unpackers and payload packers are a codec field.
- Nil and empty byte slices are not told apart.
- A packet handed to the container has no position yet; the source keeps one that is already set.
- The marker bits, versions and reserved fields that nothing reads are only packed and parsed.
- `Rr.Pack`, jitter and NTP times: byte layout and clock arithmetic of the receiver report.
- AMF0 numbers are their eight bytes; the conversion between int and float64 is not modelled.
- HMAC-SHA256 is any function with 32-byte values; random bytes and clocks are parameters; the simple client is not modelled.
- RTMP and RTSP sessions, SDP, digest authentication, HTTP, storage and configuration.
- SPS/VPS parsing and sequence headers of AVC and HEVC.
- The direct (unbuffered) writer and the synchronous mode of the connection, which pass bytes through.
