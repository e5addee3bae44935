# Models and proofs for EcoDrive

EcoDrive is firmware for a permanent-magnet motor drive with a host tool. This project models its telemetry stack, its
rectangle packer and the fixed-point and state-machine core of its controller, and proves what they are relied on for.
`dafny verify dfyconfig.toml` checks everything.

Objects that the firmware updates in place are classes whose methods are proved against functions over their abstract
state; the theorems about whole streams, runs and interleavings are lemmas about those functions.

## The parts

- **Sample codec** (`Words`, `RingFast`, `ResidualCode`, `CodecQueue`, `CodecWriter`, `CodecDecoder`, `CodecReader`,
  `CodecFrames`, `CodecLink`, `CodecRun`, `CodecPushes`, `CodecPacing`, `CodecSegments`, `CodecGap`). Delta-of-delta residuals in
  variable-length codes, resync and flush records, a byte ring with a side ring of marks, and the byte-at-a-time reader.
  The writer's two rings represent one queue of tagged records; a history of frames ties queue and reader together; the
  invariant is kept by every push, flush, read and poll in any order, with any splitting of the bytes.
- **Rectangle packer** (`Skyline`, `SkylineWaste`, `RectPack`, `RectList`, `Storage`). The skyline as a linked list with
  a free list on the heap, refined to a sequence of points, and lists of rectangles packed one call after the other.
- **Binary frames** (`Crc8`, `AbfFrame`, `AbfParser`, `AbfStream`, `AbfLink`, `AbfShared`). The check value against
  polynomial division as section 7.2.1.2 of the AUTOSAR Specification of CRC Routines defines it, zero stuffing in place,
  and the parser exactly as written.
- **Self-commissioning** (`Commissioning`, `CommissioningLoops`, `CommissioningRuns`, `CommissioningProgress`). Two loops
  over shared fields, each call one atomic step: what no run violates, and that runs get on.
- **Voltage arithmetic** (`FocVoltage`, `FocClampBelow`, `SpaceVector`). Magnitude estimate, overmodulation clamp,
  space-vector map.
- **Records and discovery** (`IdvRecords`, `Discovery`, `DiscoveryDevice`, `DiscoveryHost`, `DiscoveryApp`,
  `DiscoveryLink`). From the device's tree over messages and frames to the host's table.
- **Rings and scope** (`RingSteps`, `ByteQueues`, `Scope`, `ScopeStream`). Single-access interleavings of a producer and a
  consumer, reserve/commit and partial-transfer byte queues, and the triggered capture.

## What turned out false, and exactly when it holds

- The encoder writes prefix 240 for zigzag codes 239..255, the decoder takes prefixes from 241 on. Exactly the residual
  streams without those 17 residuals survive (`ResidualCode.RoundTripIff`); with `>=` all would (`RoundTrip`). In blocks,
  a group whose last residuals are 120 still comes out right and spoils the next one (`CodecGap.StreamIntactIff`).
- A flush announces a block without ending its group, so the next resync announces it again
  (`CodecRun.StreamIsExactIff`): push, flush, push delivers the first block twice (`CodecRun.FlushRepeatsBlock`).
- Resync records of more than 14 channels are never accepted (`CodecLink.ResyncAcceptedIff`).
- The packer's documentation (lines 149-150) and its comment at lines 253-258 say that rounded widths keep the nodes from
  running out. The rounding only guides the search; under either heuristic a node is always free iff there are at least as
  many nodes as columns (`Storage.NodesLastIff`), or when the widths themselves are multiples of the alignment
  (`Storage.GridNodesLastIff`).
- A frame header with a wrong check byte is reported, but its payload is still read and delivered
  (`AbfLink.HeaderReportedIff`); one wrong header byte can even pass unreported (`AbfFrame.HeaderChangeMissedIff`):
  for every service and length there is one such pair of codes (`AbfFrame.MissedCodes`), 207 and 178 for service 16 and
  length 1 (`AbfFrame.MissedExample`).
- The main loop parses USB data inside the parser's own receive buffer. That is the same as parsing a copy iff the call
  does not start inside an exposed payload: one of which some bytes are stored already, or which begins with the call and
  has a zero before its last byte (`AbfShared.SharingIsSafeIff`).
- Entering commissioning keeps the old sub-stage. The runs of a visit are proper iff it is the start of a settling
  (`CommissioningRuns.ProperIffFresh`); leaving while the first stage settles and entering again is not
  (`CommissioningRuns.StaleReached`).
- Duties are passed on in 16 bits. Beyond a span of 32766 the highest phase wraps and is driven with 0 instead of the
  maximum (`SpaceVector.WrittenIff`), as at full scale along the first axis (`SpaceVector.FullScaleWraps`).
- The magnitude estimate is right iff no component is INT32_MIN and no weighted sum overflows (`FocVoltage.MaxaMinb`); at
  full scale on both axes it is negative (`FocVoltage.FullScaleWraps`).
- The USB ring takes lengths in 16 bits: of longer data the rest is lost although 0 is returned
  (`ByteQueues.ByteRing.Write`).
- A discovery reply merges into the host's table. It leaves exactly the tree iff the table held nothing foreign to it
  (`DiscoveryHost.ReplyRebuilds`).

## Model

| member | source | states |
|---|---|---|
| ResidualCode.FollowUndoesPredict | ecolib/middleware/DAQCodec.h:95-103 | The reader's integrator undoes the writer's delta-of-delta predictor for every sample, including int16 wrap-around |
| ResidualCode.PredictMeaning | ecolib/middleware/DAQCodec.h:95-103 | The residual is the second difference of the samples, and the stored delta the first, modulo 2^16 |
| ResidualCode.CodeMeaning | ecolib/middleware/DAQCodec.h:150-175 | Residuals up to 119 take one byte, up to 1023 two, all others three; the bytes in numbers |
| ResidualCode.RoundTrip | ecolib/middleware/DAQCodec.h:150-175 | Residual streams survive encoding and decoding when no residual is one of the 17 with zigzag code 239..255, and all streams do if the prefix test read `>=` |
| ResidualCode.RoundTripIff | ecolib/middleware/DAQCodec.h:427-452 | As written, exactly the residual streams without such a residual come back unchanged |
| ResidualCode.NeverRealigns | ecolib/middleware/DAQCodec.h:427-452 | Once the decoder has produced one value too many from a misread residual, it never agrees with the sent stream again |
| ResidualCode.GapExample | ecolib/middleware/DAQCodec.h:158-170 | Residual 124 is written as 240, 248 and read as 120 |
| CodecWriter.Writer.PushResidual | ecolib/middleware/DAQCodec.h:150-175 | Appends exactly the one, two or three code bytes of the residual |
| CodecWriter.Writer.EncodeVector | ecolib/middleware/DAQCodec.h:146-178 | Every predictor advances by its sample; the residual codes are queued in channel order only when the vector is written |
| CodecWriter.Writer.InternalResync | ecolib/middleware/DAQCodec.h:74-94 | Queues one whole resync record with its mark, or unmarked when the mark ring is full, and rearms the sync period |
| CodecWriter.Writer.PushSample | ecolib/middleware/DAQCodec.h:129-186 | The new queue, predictors, sync count and backpressure are those of the record queue, and the call succeeds iff backpressure was off and more than 16 bytes a channel were free |
| CodecWriter.Writer.Flush | ecolib/middleware/DAQCodec.h:187-199 | Queues one flush record iff more than the control reserve is free |
| CodecPacing.PushMeaning | ecolib/middleware/DAQCodec.h:129-186 | One push: taken iff backpressure is off and more than 16 bytes a channel are free; the bytes queued, the new sync count, and predictors that follow every vector, taken or not |
| CodecPacing.AcceptedIff | ecolib/middleware/DAQCodec.h:133-149 | In every run a push is accepted iff more than 16 bytes a channel are free and the queue has been drained since the last refused push; a refused push leaves the queue alone |
| CodecPacing.ResyncIff | ecolib/middleware/DAQCodec.h:133-186 | In every run an accepted push goes out as a resync iff nothing was sent before, a flush or a refused push came last, or a whole period of vectors followed the last resync; else as residuals |
| CodecPacing.FlushMeaning | ecolib/middleware/DAQCodec.h:187-199 | A flush is taken iff more than 16 bytes are free; it queues 0xFE and makes the next vector a resync |
| CodecPacing.ReadMeaning | ecolib/middleware/DAQCodec.h:200-259 | The oldest bytes leave: the record in front whole or not at all, or sample bytes up to the next record as far as there is room; draining the queue ends backpressure and nothing else does |
| CodecWriter.Writer.CopyOut | ecolib/middleware/DAQCodec.h:232-258 | Moves the oldest bytes, in order, from at most two stretches of the ring into the caller's buffer and frees them |
| CodecWriter.Writer.ReadNext | ecolib/middleware/DAQCodec.h:200-259 | Hands out one whole control record, or sample bytes up to the next record, and names the kind, also when nothing is handed out |
| CodecWriter.FrontMark | ecolib/middleware/DAQCodec.h:200-231 | The oldest mark in the ring points at the first record behind the leading sample bytes |
| CodecWriter.PutLayout | ecolib/middleware/DAQCodec.h:74-94 | Byte ring and mark ring keep representing one queue of tagged records when a record is added |
| CodecWriter.EnqueueCodes | ecolib/middleware/DAQCodec.h:139-175 | The same when sample bytes are added |
| CodecWriter.TakeLayout | ecolib/middleware/DAQCodec.h:200-259 | The same when a piece is handed out: sample pieces hold no control byte, control pieces are one record, and its mark goes with it |
| CodecReader.Reader.DecodeByte | ecolib/middleware/DAQCodec.h:427-475 | One byte through the three-state residual decoder |
| CodecReader.Reader.EmitSample | ecolib/middleware/DAQCodec.h:498-512 | A complete residual vector is integrated and appended to the block in channel order |
| CodecReader.Reader.SyncUpdate | ecolib/middleware/DAQCodec.h:476-497 | A pending resync loads counter and channels and starts a block with the announced samples |
| CodecReader.Reader.DecodeControl | ecolib/middleware/DAQCodec.h:364-399 | A resync of the right size is kept and readies the open block; a flush readies it; other records are faults |
| CodecReader.Reader.Decode | ecolib/middleware/DAQCodec.h:323-350 | State and error of the reader after any piece |
| CodecReader.SampleBlock.GetSamples | ecolib/middleware/DAQCodec.h:285-297 | A ready block is handed out once |
| CodecLink.WriterPush | ecolib/middleware/DAQCodec.h:129-186 | A push appends to the queue exactly the frames the history records, from predictors that carry the last samples |
| CodecLink.ResyncRoundTrip | ecolib/middleware/DAQCodec.h:74-94 | A resync record gives back the counter and all channel states it was written from |
| CodecLink.ResyncMeaning | ecolib/middleware/DAQCodec.h:74-94 | On the wire: 0xFF, then counter, and sample and delta of every channel, as big-endian numbers |
| CodecLink.DecodeOutcome | ecolib/middleware/DAQCodec.h:323-399 | Errors: sample bytes before the first resync, resyncs of a wrong size or beyond 64 bytes, and unknown records are answered with their error and change nothing before a resync; a good record closes the open block |
| CodecLink.ResyncAcceptedIff | ecolib/middleware/DAQCodec.h:385-399 | The reader accepts a resync record iff there are at most 14 channels |
| CodecLink.ByteStep | ecolib/middleware/DAQCodec.h:400-426 | Every sample byte keeps the reader in step with the frames sent, and the last byte of a vector appends that vector |
| CodecLink.ControlStep | ecolib/middleware/DAQCodec.h:364-399 | Every control record keeps the reader in step, and announces a block exactly when it closes a group |
| CodecLink.PieceStep | ecolib/middleware/DAQCodec.h:323-350 | However small the caller's buffer splits the queue, a piece keeps the reader in step |
| CodecFrames.AnnouncedIsGroup | ecolib/middleware/DAQCodec.h:364-399 | Every announced block is one complete group: the vectors from a resync up to the record that closes it; what the last record announces is the group that record closes |
| CodecFrames.AnnouncedBalance | ecolib/middleware/DAQCodec.h:187-199 | Announced samples and the open group are all accepted samples if no flush came early, and strictly more otherwise |
| CodecRun.RunInStep | ecolib/middleware/DAQCodec.h:129-259 | The invariant of writer, rings, history and reader holds after every interleaving of pushes, flushes, reads and polls |
| CodecRun.EndToEnd | ecolib/middleware/DAQCodec.h:323-510 | After any run with 1..14 channels, a ready block holds exactly the accepted vectors of the group closed by the last frame handed out, and the queue holds exactly the frames after that |
| CodecPushes.BlockIsConsecutive | ecolib/middleware/DAQCodec.h:129-186 | A ready block is made of pushes that came one after the other, none of them dropped, and bears the counter given with the first |
| CodecPushes.RunSteady | ecolib/middleware/DAQCodec.h:129-186 | In every run, admissible or not, a vector sent as residuals was pushed right after the vector sent in front of it |
| CodecRun.Delivered | ecolib/middleware/DAQCodec.h:200-259 | When the queue is drained, a consumer that looks after every piece has taken every announced block, in order |
| CodecRun.StreamIsExactIff | ecolib/middleware/DAQCodec.h:187-199 | A flushed and drained run delivers exactly the accepted samples iff no earlier flush closed a group; otherwise the next resync announces that block again |
| CodecRun.FlushRepeatsBlock | ecolib/middleware/DAQCodec.h:187-199 | Push, flush, push, each received at once: the consumer takes the first block twice, for all vectors and 1..14 channels |
| CodecRun.MarksSuffice | ecolib/middleware/DAQCodec.h:104-113 | A mark ring no smaller than the byte ring never drops a mark |
| CodecSegments.RunSegments | ecolib/middleware/DAQCodec.h:200-259 | In every run, the pieces handed out and the bytes still queued are all bytes written, in order; if no mark was dropped, every record is one whole control piece and all else is sample pieces |
| CodecGap.AgreesIff | ecolib/middleware/DAQCodec.h:427-452 | The decoded residuals begin with those sent iff none is misread but values 120 at the end; each of these comes out twice |
| CodecGap.BlockIntactIff | ecolib/middleware/DAQCodec.h:400-426 | Into a block with room for its vectors, a group comes out right, with less than a vector of residuals over, iff no residual 120 is over from the group in front and nothing is misread but fewer than a vector of values 120 at its end; those are then over for the next group |
| CodecGap.StreamIntactIff | ecolib/middleware/DAQCodec.h:400-497 | Exactly the streams of groups that arrive as sent, misread residuals included, into blocks with room for the vectors sent: a group whose last residuals are 120 is right and spoils the next one with residuals, as a resync does not empty the residual buffer |
| CodecGap.PiecesJoin | ecolib/middleware/DAQCodec.h:323-350 | How the codes of a group are cut into pieces makes no difference |
| CodecGap.GroupRebuilds | ecolib/middleware/DAQCodec.h:498-512 | The vectors of a group of the history are what its resync record and its residuals rebuild |
| Words.PowerOfTwoTest | ecolib/el/ring.h:32-36 | The capacity test accepts exactly the powers of two |
| Words.MaskIsMod | ecolib/el/ring.h:113-117 | Masking with a power of two minus one is the remainder |
| RingFast.Ring.Push | ecolib/el/ring.h:39-49 | Appends unless one slot would not stay free |
| RingFast.Ring.PushFast | ecolib/el/ring.h:50-54 | Appends when there is room; on a full ring everything unread is lost |
| RingFast.Ring.Pop | ecolib/el/ring.h:58-67 | Removes and returns the oldest item iff there is one |
| RingFast.Ring.Advance | ecolib/el/ring.h:84-90 | Drops the n oldest items iff there are that many |
| RingFast.Ring.DistanceFromTail | ecolib/el/ring.h:91-106 | A slot's distance from the oldest item modulo the capacity, also for negative indices, iff that slot is part of the contents |
| RingFast.Ring.ReadReserve | ecolib/el/ring.h:166-206 | The two stretches returned are the contents, oldest first |
| RingFast.Ring.ReadCommit | ecolib/el/ring.h:207-210 | Drops exactly the items read |
| RingSteps.StepKeeps | ecolib/el/ring.h:39-67 | Each single access of producer or consumer keeps the invariant of ring, pending accesses and histories |
| RingSteps.SafeInterleaving | ecolib/el/ring.h:39-67 | After any interleaving of single accesses, what was popped is a prefix of what was pushed, and producer and consumer never access one slot |
| RingSteps.StepOutcome | ecolib/el/ring.h:39-67 | A push passes its test iff a slot besides the spare one is free, a pop iff something is there; items come out in the order in which they went in |
| ByteQueues.ByteRing.WriteReserve | ecolib/el/el_ring.h:54-86 | Succeeds iff the bytes fit; the stretches are the next slots in order, in bounds and outside the contents |
| ByteQueues.ByteRing.WriteCommit | ecolib/el/el_ring.h:42-46 | What was put into those slots becomes the tail of the queue |
| ByteQueues.ByteRing.ReadReserve | ecolib/el/el_ring.h:88-124 | The two stretches are the contents, oldest first |
| ByteQueues.ByteRing.ReadCommit | ecolib/el/el_ring.h:48-52 | Drops exactly the bytes read |
| ByteQueues.ByteRing.Write | ecolib/driver/stm32f4/el_usbxch.c:76-88 | Appends all or nothing of the first length mod 65536 bytes and returns 0 whenever it appends, so of longer data the rest is lost unnoticed |
| ByteQueues.ByteRing.Read | ecolib/driver/stm32f4/el_usbxch.c:124-147 | Reserve, copy and commit remove at most the asked number of oldest bytes, in order |
| ByteQueues.MutexRing.Push | EcoTool/RingBuffer.hpp:26-40 | Appends as much of the data as fits and says how much |
| ByteQueues.MutexRing.Pop | EcoTool/RingBuffer.hpp:42-54 | Removes as many of the oldest bytes as asked for and there |
| Skyline.PlaceIsSky | thirdparty/imgui/imstb_rectpack.h:464-521 | Placing a box keeps the skyline strictly increasing from 0 to the sentinel |
| Skyline.PlaceKeepsPacking | thirdparty/imgui/imstb_rectpack.h:449-526 | A box placed on the level over its columns lies in the target, overlaps no earlier box, and all boxes stay below the skyline |
| Skyline.PlaceMeaning | thirdparty/imgui/imstb_rectpack.h:464-521 | Column by column the new skyline is the upper edge of the box where it blocks, and the old skyline elsewhere |
| Skyline.BestStartIsBottomLeft | thirdparty/imgui/imstb_rectpack.h:347-391 | The best node start is lowest, then leftmost, over all integer columns |
| Skyline.StartsDecide | thirdparty/imgui/imstb_rectpack.h:347-391 | If no node start fits, no column fits |
| SkylineWaste.AreaInside | thirdparty/imgui/imstb_rectpack.h:291-339 | The area over columns of one segment is their number times the height above it; with `SkySplit`, areas of adjacent spans add up |
| SkylineWaste.EdgesDecide | thirdparty/imgui/imstb_rectpack.h:372-440 | What no spot offers that aligns an edge of the box with a point, no integer column offers: lower, less wasteful or further left |
| SkylineWaste.BestFitNotInside | thirdparty/imgui/imstb_rectpack.h:393-440 | The best fit never starts inside the ground |
| SkylineWaste.PlaceKeepsGround | thirdparty/imgui/imstb_rectpack.h:464-521 | Placing a box keeps the ground at the right end of the skyline |
| RectPack.Context.SetupAllowOutOfMem | thirdparty/imgui/imstb_rectpack.h:245-263 | The alignment for either choice |
| RectPack.AlignIsLeast | thirdparty/imgui/imstb_rectpack.h:253-263 | The alignment is the least with which as many multiples as there are nodes cover the width |
| RectPack.Context.InitTarget | thirdparty/imgui/imstb_rectpack.h:265-289 | A fresh target: flat skyline, all caller nodes free, alignment that covers the width |
| RectPack.Context.FindMinY | thirdparty/imgui/imstb_rectpack.h:291-339 | The true maximum height under the span, and as waste exactly the area between it and the skyline, from every column of every skyline the packer reaches |
| RectPack.Context.FindBestPos | thirdparty/imgui/imstb_rectpack.h:347-447 | Bottom-left: lowest, then leftmost over every integer column; best fit: lowest, then least area wasted, then leftmost over every integer column; not found only when nothing fits |
| RectPack.Context.Recycle | thirdparty/imgui/imstb_rectpack.h:484-494 | Exactly the covered nodes move to the free list |
| RectPack.Context.Splice | thirdparty/imgui/imstb_rectpack.h:464-503 | The relinked list is the skyline with the box placed, and the set of nodes is unchanged |
| RectPack.Context.PackRectangle | thirdparty/imgui/imstb_rectpack.h:449-526 | Found iff the rounded width fits, a node is free and some position fits; the place is the bottom-left or best-fit one; the boxes stay a packing; no node is lost or listed twice |
| RectPack.PlacesMeaning | thirdparty/imgui/imstb_rectpack.h:347-447 | No other column is lower than a placed box; of those as low none is further left or, for best fit, wastes less area, or as much and is further left |
| RectPack.PlacedColumns | thirdparty/imgui/imstb_rectpack.h:464-521 | A placed box raises exactly its own columns to its upper edge, and at most those up to a point behind it within its rounded width |
| RectList.Sort | thirdparty/imgui/imstb_rectpack.h:528-544 | A sorted permutation of the array |
| RectList.PackRects | thirdparty/imgui/imstb_rectpack.h:546-584 | The caller's order, identities and sizes come back; the flagged rectangles that are not empty are exactly the boxes added, apart from each other and from all boxes of earlier calls; each rectangle, the tallest first and of these the widest first, was placed or found impossible to place on the skyline of its turn |
| Storage.NodesLastIff | thirdparty/imgui/imstb_rectpack.h:245-263 | Over all runs of either heuristic, rounded or not, a node is always free iff there are at least as many nodes as columns, so the rounding alone does not guarantee it |
| Storage.GridNodesLastIff | thirdparty/imgui/imstb_rectpack.h:245-263 | If every width is a multiple of the alignment, a node is always free under either heuristic iff widths are rounded or there are as many nodes as columns |
| Storage.OffGridIsNotBest | thirdparty/imgui/imstb_rectpack.h:393-440 | Best fit never picks a right edge off the grid: a spot on the grid wastes less or lies further left |
| Storage.OnlyGeometryDecides | thirdparty/imgui/imstb_rectpack.h:449-462 | In both cases a box is placed iff its rounded width fits and some position does |
| Storage.TurnsReachable | thirdparty/imgui/imstb_rectpack.h:546-584 | The shelves a call of the list packer goes through are among those runs |
| Crc8.TableIsShift | ecolib/middleware/ABFStream.cpp:7-25 | Each of the 256 table entries is eight steps of the shift register for polynomial 0x2F |
| Crc8.Calculate | ecolib/middleware/ABFStream.cpp:30-39 | The loop computes the table-driven value with initial value and final xor 0xFF |
| Crc8.LoopIsDivision | ecolib/middleware/ABFStream.cpp:30-39 | The register after any message is the one and only remainder of the message polynomial by x^8+x^5+x^3+x^2+x+1 |
| Crc8.RemainderIsUnique | ecolib/middleware/ABFStream.cpp:30-39 | Polynomial division by the generator leaves one remainder |
| Crc8.OneByteChangeIsSeen | ecolib/middleware/ABFStream.cpp:30-39 | Changing any single byte of any message changes the value |
| Crc8.LastByteFor | ecolib/middleware/ABFStream.cpp:30-39 | Whatever comes before, exactly one last byte gives a wanted value |
| AbfStream.Stream.constructor | ecolib/middleware/ABFStream.cpp:44-58 | Hunting, with the caller's buffer |
| AbfStream.Stream.Stuff | ecolib/middleware/ABFStream.cpp:73-85 | In place, every zero becomes the distance to the next zero or the end; the code byte is the first distance in eight bits |
| AbfStream.Stream.Encode | ecolib/middleware/ABFStream.cpp:62-94 | Refuses empty payloads and service 0 and leaves both buffers alone; otherwise header and payload are the frame's wire bytes |
| AbfFrame.WireMeaning | ecolib/middleware/ABFStream.cpp:62-94 | A zero, service, length, place of the first zero plus one in eight bits, check byte; then every payload byte, a zero as the distance to the next zero or the end |
| AbfStream.Stream.Process | ecolib/middleware/ABFStream.cpp:96-161 | State, buffer and callbacks after any bytes, also when the input is the receive buffer itself |
| AbfStream.Stream.PutByte | ecolib/middleware/ABFStream.cpp:129-149 | One payload byte, including the byte that is still stored after a zero was reported |
| AbfLink.ZeroReported | ecolib/middleware/ABFStream.cpp:129-157 | A zero in a payload is reported and ends it, yet is stored; a payload of one byte is delivered all the same |
| AbfLink.OverflowReported | ecolib/middleware/ABFStream.cpp:145-149 | A byte beyond the receive buffer is reported and ends the payload without a delivery |
| AbfStream.Stream.Reset | ecolib/middleware/ABFStream.cpp:163-168 | Back to hunting |
| AbfFrame.HeaderChangeMissedIff | ecolib/middleware/ABFStream.cpp:89-91 | A single wrong header byte goes unnoticed iff the two remainders are 0 and 0xFF |
| AbfFrame.MissedCodes | ecolib/middleware/ABFStream.cpp:89-91 | For every service and length there is exactly one pair of code bytes with the same check byte |
| AbfFrame.MissedExample | ecolib/middleware/ABFStream.cpp:89-91 | Service 16, length 1: codes 207 and 178 |
| AbfLink.FeedSplit | ecolib/middleware/ABFStream.cpp:96-161 | How the stream is cut into calls makes no difference |
| AbfLink.RoundTrip | ecolib/middleware/ABFStream.cpp:62-94 | Every frame with nonzero service and 1..255 bytes within capacity is delivered as sent, without an error, including the code that wraps to 0 |
| AbfLink.HeaderReportedIff | ecolib/middleware/ABFStream.cpp:109-126 | A header is reported iff its check byte is wrong, and the announced bytes are read and delivered either way |
| AbfLink.ReturnsToHunt | ecolib/middleware/ABFStream.cpp:96-161 | From every state, within 259 bytes the parser hunts |
| AbfLink.DeliveredFrom | ecolib/middleware/ABFStream.cpp:96-161 | On a clean stream, exactly the frames whose sync byte follows a hunting point are delivered, in order |
| AbfLink.SelfStabilises | ecolib/middleware/ABFStream.cpp:96-161 | From every state, at most 259 bytes of a clean stream are misread |
| AbfShared.SharingIsSafeIff | EcoDrive/sys.cpp:73-74 | Parsing in the receive buffer equals parsing in a buffer of its own for all inputs iff no exposed payload is under way when the call starts |
| CommissioningLoops.SComm.Enter | EcoDrive/PmsmControl/PmsmControlCore_SComm.cpp:8-13 | Entering selects stage RS and keeps the sub-stage |
| CommissioningLoops.SComm.PwmLoop | EcoDrive/PmsmControl/PmsmControlCore_SComm.cpp:19-65 | Injection, accumulation and countdown of one PWM period |
| CommissioningLoops.SComm.XmcLoop | EcoDrive/PmsmControl/PmsmControlCore_SComm.cpp:67-213 | One slow tick, with LD falling through to REST0 and LQ |
| CommissioningRuns.SlowIsCleanIff | EcoDrive/PmsmControl/PmsmControlCore_SComm.cpp:107-211 | The fall-through switch equals the intended cycle iff it is not in a state where it would compute Lq early |
| CommissioningRuns.DueIsReal | EcoDrive/PmsmControl/PmsmControlCore_SComm.cpp:90 | The 32-bit tick difference never exceeds the periods that really passed |
| CommissioningRuns.PwmKeeps | EcoDrive/PmsmControl/PmsmControlCore_SComm.cpp:19-65 | Every PWM period keeps the invariant; the accumulators never leave 64 bits |
| CommissioningRuns.SlowKeeps | EcoDrive/PmsmControl/PmsmControlCore_SComm.cpp:67-213 | Every slow tick keeps the invariant and is a tick of the intended cycle |
| CommissioningRuns.RunFollowsCycle | EcoDrive/PmsmControl/PmsmControlCore_SComm.cpp:67-213 | Every interleaving of a visit that began with settling, the first visit or a later one, is a run of the cycle RS, LD, REST0, LQ; each result is made of exactly 32768 samples of its own axis under its own voltage, all more than 20000 periods after its stage began to settle |
| CommissioningRuns.ProperIffFresh | EcoDrive/PmsmControl/PmsmControlCore_SComm.cpp:8-13 | After entering from any state, every run of the visit is proper iff the sub-stage left over is the start of a settling |
| CommissioningRuns.StaleReached | EcoDrive/PmsmControl/PmsmControlCore_SComm.cpp:8-13 | Leaving one slow tick after power-on and entering again more than 20000 periods later samples without settling |
| CommissioningProgress.SampleTaken | EcoDrive/PmsmControl/PmsmControlCore_SComm.cpp:19-65 | While sampling with samples outstanding, every period takes one of its own axis, adds it up and lowers the count by one |
| CommissioningProgress.StageCompletes | EcoDrive/PmsmControl/PmsmControlCore_SComm.cpp:67-211 | Given more than 20000 periods, a slow tick, at least 32768 periods and a slow tick, a stage takes exactly 32768 samples, computes their sums and hands over to the next stage |
| CommissioningProgress.RestCompletes | EcoDrive/PmsmControl/PmsmControlCore_SComm.cpp:145-183 | Given more than 20000 periods and a slow tick, the pause gives way to stage LQ |
| CommissioningProgress.CycleCompletes | EcoDrive/PmsmControl/PmsmControlCore_SComm.cpp:67-211 | A visit that begins with settling runs through RS, LD, REST0 and LQ and back to RS; the trace is spelled out note by note, every result from the inputs of its own periods |
| FocVoltage.MaxaMinb | EcoDrive/PmsmControl/PmsmControlCore_Foc.cpp:14-30 | The 32-bit steps compute the estimate iff neither component is INT32_MIN and neither weighted sum of the two reaches 2^62 |
| FocVoltage.FullScaleWraps | EcoDrive/PmsmControl/PmsmControlCore_Foc.cpp:14-30 | At full scale on both axes the estimate wraps and is negative |
| FocVoltage.EstimateIsLinear | EcoDrive/PmsmControl/PmsmControlCore_Foc.cpp:4-7 | Truncated coefficients and shifts lose less than three units against the exact lines |
| FocVoltage.MagnitudeBounds | EcoDrive/PmsmControl/PmsmControlCore_Foc.cpp:14-30 | Inside the disc 16705(a^2+b^2) <= 16384(2^31-1)^2: no overflow, 16384 r^2 <= 16705(a^2+b^2) and 32768(r+3)^2 >= 32041(a^2+b^2) |
| FocVoltage.Foc.Clamp | EcoDrive/PmsmControl/PmsmControlCore_Foc.cpp:125-135 | Above the limit both axes and both integrators are scaled by the same factor; otherwise nothing changes; for all components, with the true index iff the estimate is the true one |
| FocVoltage.ScaledFits | EcoDrive/PmsmControl/PmsmControlCore_Foc.cpp:128-133 | The scaled products fit 32 bits, keep their sign, and index * abs(v') <= limit * (abs(v) + 4096) |
| FocVoltage.ClampedMagnitude | EcoDrive/PmsmControl/PmsmControlCore_Foc.cpp:125-133 | Old index times new magnitude is at most limit times old magnitude and 5731 units |
| FocVoltage.ClampedIndex | EcoDrive/PmsmControl/PmsmControlCore_Foc.cpp:125-133 | The index computed again exceeds the limit by at most one plus 7715 over the bus limit |
| FocClampBelow.ScaledFromBelow | EcoDrive/PmsmControl/PmsmControlCore_Foc.cpp:128-133 | From below: index * (abs(v') + abs(v) / 4096 + 1) >= limit * (abs(v) - 4095) |
| FocClampBelow.ClampedMagnitudeFromBelow | EcoDrive/PmsmControl/PmsmControlCore_Foc.cpp:125-133 | Old index times new magnitude is at least limit times old magnitude, but for 5727 units of the one and six units and one part in 4096 of the other |
| FocClampBelow.ClampedIndexFromBelow | EcoDrive/PmsmControl/PmsmControlCore_Foc.cpp:125-133 | The index computed again falls short of the limit by at most one, one part in 4096 of the old index, and 7720 over the bus limit |
| SpaceVector.Bridge.WriteSvm | EcoDrive/platform/host/el_mc3p.cpp:270-331 | All phases switch; sector and duties are those of the alpha-beta map, stored in 16 bits and saturated |
| SpaceVector.Bridge.WriteTrap | EcoDrive/platform/host/el_mc3p.cpp:241-268 | Valid sectors set the table's phase states and duties; others change neither; any call after another drive changes the mode |
| SpaceVector.Bridge.WriteFloat | EcoDrive/platform/host/el_mc3p.cpp:220-225 | All phases float with zero duty |
| SpaceVector.Bridge.WritePhaseDuty | EcoDrive/platform/host/el_mc3p.cpp:201-218 | Saturated duties, overridden for phases held low or high |
| SpaceVector.TrapTurns | EcoDrive/platform/host/el_mc3p.cpp:229-239 | From sector to sector the driven voltage turns by 60 degrees, and the second sector's points to 30 degrees |
| SpaceVector.PhasesMeaning | EcoDrive/platform/host/el_mc3p.cpp:278-287 | The phases are the projections on axes at 0, 120 and 240 degrees, rounded down |
| SpaceVector.OffsetIsBest | EcoDrive/platform/host/el_mc3p.cpp:306-319 | Line-to-line differences are kept, and no other whole offset gives a smaller peak deviation from half |
| SpaceVector.InRangeIff | EcoDrive/platform/host/el_mc3p.cpp:306-319 | All duties lie in [0,32767] iff the span is at most 32766 |
| SpaceVector.CircleIsInRange | EcoDrive/platform/host/el_mc3p.cpp:278-319 | They do for every vector of length at most 18916 |
| SpaceVector.FloatIffZero | EcoDrive/platform/host/el_mc3p.cpp:288-304 | The sector is FLOAT iff the vector is zero |
| SpaceVector.SectorIsWedge | EcoDrive/platform/host/el_mc3p.cpp:288-304 | Each sector is one 60 degree wedge of the plane, numbered counter-clockwise from the positive alpha axis |
| SpaceVector.WrittenIff | EcoDrive/platform/host/el_mc3p.cpp:201-206 | The written duties are the saturated true ones iff the span is at most 32766; beyond it the highest phase is written as 0 |
| SpaceVector.WrittenUnchangedIff | EcoDrive/platform/host/el_mc3p.cpp:201-206 | A duty is written unchanged iff it is zero or within the limits |
| SpaceVector.FullScaleWraps | EcoDrive/platform/host/el_mc3p.cpp:270-331 | Full scale along the first axis has span 49151 and drives the first phase with 0 |
| IdvRecords.Writer.Add | ecolib/middleware/IDV.h:45-54 | Appends a whole record iff it fits, else nothing |
| IdvRecords.Reader.Next | ecolib/middleware/IDV.h:104-118 | Moves to the next complete record iff there is one |
| IdvRecords.Reader.AsByte | ecolib/middleware/IDV.h:119-129 | The value as a byte iff it is one byte long |
| IdvRecords.ReadBack | ecolib/middleware/IDV.h:104-118 | From any prefix of written bytes exactly the complete records are read |
| IdvRecords.PackedFits | ecolib/middleware/IDV.h:21-54 | Records that fit together are all taken |
| Discovery.NodesAt | ecolib/middleware/DAQStream.cpp:4-16 | Stream i and its channels stand at consecutive preorder positions, and channels name their stream as parent |
| Discovery.IdsDistinctIff | ecolib/middleware/DAQStream.cpp:4-16 | The identifiers are distinct iff there are at most 256 nodes |
| Discovery.ReplyBrackets | ecolib/middleware/DAQStream.cpp:28-55 | The reply has one message a node between the messages FF 01 01 and FF 01 81 |
| DiscoveryDevice.Session.Annonate | ecolib/middleware/DAQStream.cpp:4-16 | Every object's identifier is its preorder position in eight bits |
| DiscoveryDevice.Channel.Serialize | ecolib/middleware/DAQStream.cpp:94-105 | The packed records of a channel's section |
| DiscoveryDevice.Stream.Serialize | ecolib/middleware/DAQStream.cpp:80-92 | The packed records of a stream's section |
| DiscoveryDevice.Session.Serialize | ecolib/middleware/DAQStream.cpp:107-117 | The packed records of the session's section |
| DiscoveryDevice.Session.DiscoveryRespond | ecolib/middleware/DAQStream.cpp:28-55 | One message for each node in preorder between an opening and a closing message, from identifiers just assigned |
| DiscoveryApp.App.OnMark | EcoTool/DAQSessionAPP.h:104-125 | What a marker does to the handler |
| DiscoveryApp.App.OnField | EcoTool/DAQSessionAPP.h:126-162 | What a field does to handler and table |
| DiscoveryApp.App.Process | ecolib/middleware/DAQStream.cpp:57-78 | All complete records of a payload, in order |
| DiscoveryHost.FieldsMeaning | EcoTool/DAQSessionAPP.h:126-162 | A rebuilt object has its node's fields with their bytes and no others |
| DiscoveryHost.NodeRebuilt | EcoTool/DAQSessionAPP.h:104-162 | The message of a node sets marker, parent and fields of its object; fields already there stay, and so do all other objects |
| DiscoveryHost.ReplyUpdates | EcoTool/DAQSessionAPP.h:104-162 | From any table and for any number of nodes, a whole reply merges the nodes into the table in preorder |
| DiscoveryHost.UpdatedMeaning | EcoTool/DAQSessionAPP.h:126-162 | Objects of the tree get its marker, parent and fields and keep other fields; all other objects stay |
| DiscoveryHost.ReplyRebuilds | EcoTool/DAQSessionAPP.h:104-162 | From any table, a whole reply leaves exactly the tree's nodes under their own identifiers iff the table held no other identifier and no field its node does not have |
| DiscoveryHost.MessageBytes | ecolib/middleware/DAQStream.cpp:80-117 | A node's message byte by byte: marker, identifier, parent, the records of its fields, and the marker with its highest bit set |
| DiscoveryHost.SessionShown | ecolib/middleware/DAQStream.cpp:107-117 | After a reply, object 0 is a session with the text and the number of streams of the device's session |
| DiscoveryHost.StreamShown | ecolib/middleware/DAQStream.cpp:80-92 | After a reply, the object at a stream's position is a stream with its text, number of channels, sample time and ticks |
| DiscoveryHost.ChannelShown | ecolib/middleware/DAQStream.cpp:94-105 | After a reply, the object at a channel's position is a channel with its text, scale and offset, and its stream as parent |
| DiscoveryHost.StrayFieldsIgnored | EcoTool/DAQSessionAPP.h:104-162 | Fields before a section's identifier or outside any section change nothing in the table |
| DiscoveryLink.RebuiltOverTheWire | EcoTool/DAQSessionAPP.h:96-103 | The same when every message is sent as a frame and parsed by a hunting receiver |
| Scope.DecimatedMeaning | ecolib/middleware/ScopeStream.h:46-49 | Decimation keeps every n-th vector and no other |
| Scope.CaptureAfter | ecolib/middleware/ScopeStream.h:42-79 | After any writes since a reset: the exact trigger, fill and frozen state |
| Scope.FrozenBuffer | ecolib/middleware/ScopeStream.h:42-79 | Frozen iff depth decimated vectors from the first armed sample above level+hysteresis are there, armed at once or by one below level-hysteresis; the buffer is exactly those and no write changes it; after an earlier capture a sample below level-hysteresis came first |
| Scope.TooDeep | ecolib/middleware/ScopeStream.h:70-75 | A depth beyond 65535 never freezes |
| ScopeStream.ScopeStream.Write | ecolib/middleware/ScopeStream.h:42-79 | One write over the flat buffer |
| ScopeStream.ScopeStream.Read | ecolib/middleware/ScopeStream.h:85-93 | The whole capture iff frozen and the caller's buffer takes it |
| ScopeStream.ScopeStream.ReadChannel | ecolib/middleware/ScopeStream.h:95-107 | One channel of the capture iff frozen and the caller's buffer takes it |
| ScopeStream.ScopeStream.Reset | ecolib/middleware/ScopeStream.h:117-122 | Starts over and keeps the hysteresis flag |

## Left out

- RingFast.Ring: `write_reserve` of `ring_fast` is not modelled; it uses the member function `size` as a value and cannot be instantiated.
- CodecReader.Reader.DecodeControl: the source copies one byte past a resync record; only the record's bytes are modelled.
- CodecWriter.Writer.Reset: as in the source, reset leaves the mark ring alone; the writer is valid afterwards iff no mark was queued, and runs do not contain resets.
- CodecRun.EndToEnd: assumes that no mark is dropped and no residual of the misread range occurs; `MarksSuffice` gives a ring size for the first. With a full mark ring the bytes of a record pass for sample bytes.
- CodecGap.StreamIntactIff: once a block is full, residuals beyond a vector would be stored beyond the end of the source's buffer; such a stream counts as not intact.
- CodecWriter.Writer: more than 15 channels overflow the 8-bit reserve and are excluded.
- RectPack.Context.FindMinY: the waste is an unbounded integer; overflow of the sum is not modelled.
- RectPack.Context.InitTarget: the target's height stays below the sentinel 2^30.
- RectList.Sort: the C library's sort is modelled by one particular sort, of which only the contract is used.
- Storage.NodesLastIff: one heuristic and one alignment for a whole run.
- AbfStream.Stream: the callbacks are recorded instead of called; statistics, which the source never updates, are left out.
- Commissioning: the trace is that of one visit to the mode; sine, cosine and currents are inputs of each PWM period; the formulas for R, Ld and Lq, angle forcing and the call into the current loop are left out. A call is atomic, preemption inside a slow tick is not modelled.
- FocVoltage: the PID, Park and Clarke calls, the bus current and the cascade around the clamp are left out. Negating INT32_MIN wraps, as the processor does it.
- SpaceVector.Bridge: duties are numerators over 32767 instead of floats; dead-time compensation is a build option that is off.
- IdvRecords.Reader: the source's constructor does not keep its span; the reader is modelled over the bytes it was given.
- DiscoveryApp.App.Process: the source's `process` ignores its argument; the evident intent, reading the received payload, is modelled. Field names, which are looked up in a constant table, are left out.
- DiscoveryDevice.Session.DiscoveryRespond: numbers are the bytes copied into a record, in whatever byte order the processor has.
- DiscoveryHost.ReplyRebuilds: assumes that every section fits the device's buffer, and up to 256 nodes; beyond, `ReplyUpdates` still says what the table holds.
- Scope: samples are integers; the timing formula that picks the decimation is left out.
- ByteQueues.MutexRing: the mutex makes each call atomic.
- USB, serial and TCP transports, threads, the graphical tool, the simulated plant, configuration validators and other floating-point code.
