# A verified model of oxrdp's protocol core

oxrdp streams single Windows windows from an agent to a Linux client over its own protocol. This
project models the parts of it that are logic rather than plumbing, in Dafny, and proves what they
promise for every input and every run. `dafny verify dfyconfig.toml` checks all of it.

The modules, one per file:

- **Transport.** `Envelope` (chunk header, fragmentation, per-channel reassembly under caps),
  `Interleaving` (runs of the receiver over interleaved channels), `Framing` (a byte stream as chunks),
  `Stream` (the cancel-safe reader over a pipe whose awaits are nondeterministic), `Exchange` (the
  cancel-safe writer, and a writer and a reader joined by a pipe).
- **H.264.** `Annexb` (start codes), `Reframe` and `ReframeLoop` (access unit normalising and the
  parameter-set cache), `Bits`, `Golomb`, `Sps` and `SpsMisread` (emulation prevention, Exp-Golomb
  codes, the sequence parameter set walk, and a unit it misreads).
- **Windows.** `WindowMessages`, `ClientModel` (the client's windows and stacking order), `Registry`
  (ids and video channels), `Pacing` (frame budget), `WindowStream` (what the agent keeps per window),
  `FrameLog` (sending and logging frames), `Mirror` (the client kept in step, message by message),
  `Serve` (the agent's ticks), `History` (a session seen from one window), `Sessions` (agent and client
  over whole sessions).
- **Client intent and measurement.** `GeometryIntent`, `Samples`, `Clock`, `FrameLatency`.
- **Two smaller cores.** `Presenter` (row copies onto a surface), `Connector` (the RDP connection
  sequence, section 1.3.1.1 of MS-RDPBCGR).
- `Prelude` and `Runs` hold machine integers and generic runs of a step function.

Objects the source updates in place are classes here, their loops are loops with invariants, and each
method is tied to a value-level step function; the theorems about whole runs are about those step
functions.

Stated assumptions: live window handles are pairwise distinct and no window is both minimized and
maximized (`Serve.LiveList`); clocks drift by at most 100 parts per million and the offset holds still
during one exchange (`Clock.Steady`, `Clock.Genuine`). How many window messages the outbound queue takes
in a tick is an arbitrary number given with the tick; a closed queue, or a message that cannot be encoded,
is a refusal like any other.

What the code does differently from what one would expect, each with its exact condition:

- `docs/design/OXPROTO.md` (lines 216-219) promises an SPS and a PPS on every keyframe. A keyframe met
  before any parameter set was seen goes out without (`Reframe.BareKeyframe`); the missing set is
  missing exactly in that case (`Reframe.KeyframesCarryParameters`).
- The clock error bound reported is half the round trip rounded down. It is exceeded exactly when the
  round trip is odd and the agent stamped at the instant the answer arrived
  (`Clock.ReportedBoundExact`, `Clock.ReportedBoundExceeded`).
- A window announced while both minimized and maximized is shown differently by the client
  (`Mirror.OpenMirrors`).
- A tick whose window messages do not fit the outbound queue ends the session with the agent ahead of
  the client by the one message refused: a title, state or position is recorded already, a new handle is
  tracked without a stream, departed handles are forgotten though not all were closed
  (`Serve.Halted`, `Sessions.Lacks`, `Sessions.RunSession`).
- Restacking a window against itself makes it change places with its upper neighbour, unless it is
  topmost; even then the stack is reported as changed (`ClientModel.SelfRestackExact`).
- The SPS parser unescapes only what is behind the fixed prefix. Where an escape falls into that prefix
  or on the border behind it, it parses something other than the body written (`Sps.BodySeenExact`); a
  unit with a zero level byte is misread (`SpsMisread.Misread`).
- Host-translation invariance of the geometry tracker needs no exception for saturation
  (`GeometryIntent.HostTranslationInvariant`), and the clock bound needs no order of pongs
  (`Clock.EstimateWithinBound`).

## Model

| member | source | states |
|---|---|---|
| `Exchange.RunScript` | crates/oxtransport/src/stream.rs:166-307 | Main transport theorem. For every script of queueing, flushing, reading and closing, and every behaviour of the pipe at every await (any number of bytes moves, or the call is dropped), the messages read are a prefix of the messages queued, in order and byte-equal; all of them once nothing is unsent or unread; and nothing but the pipe holds a message back: every read call got a message, met the end of a closed stream or was stopped by the pipe, and if the pipe never stopped, only what was queued since the last flush is unsent |
| `Exchange.Link.Next` | crates/oxtransport/src/stream.rs:166-216 | On a stream written by `ChunkWriter` a read call yields the next queued message, meets the end of a closed stream read to its end, or is stopped by the pipe: never a framing error, a refusal, a repeat, a skip or a call given up by itself |
| `Exchange.Link.Queue` | crates/oxtransport/src/stream.rs:282-289 | Bytes on the wire plus bytes unsent remain the framing of everything queued so far |
| `Exchange.Link.Flush` | crates/oxtransport/src/stream.rs:296-307 | Wherever a flush is abandoned, wire plus unsent bytes are still the framing of everything queued |
| `Exchange.Link.DrainedDelivers` | crates/oxtransport/src/stream.rs:166-307 | With nothing unsent and nothing unread, as many messages were delivered as queued |
| `Exchange.ChunkWriter.QueueRaw` | crates/oxtransport/src/stream.rs:282-289 | The unsent bytes grow by exactly the framed chunks of the body |
| `Exchange.ChunkWriter.Flush` | crates/oxtransport/src/stream.rs:296-307 | Wire plus unsent bytes are conserved under every pattern of partial and dropped writes; success leaves nothing unsent, and only a stop of the pipe or a write that takes nothing prevents it |
| `Exchange.NextIsQueued` | crates/oxtransport/src/stream.rs:166-216 | A reader positioned anywhere in a conforming stream can return nothing but the message queued at its position |
| `Stream.ChunkReader.NextMessage` | crates/oxtransport/src/stream.rs:166-216 | Reader and reassembler state are a function of the bytes consumed, whatever was dropped on the way; a call returns exactly the next result those bytes contain beyond the ones already returned; it ends without a result only where the pipe stopped it, a bad header is reported only at an undecodable one, end of file only when a closed stream has been read to its end |
| `Stream.ChunkReader.HeaderPhase` | crates/oxtransport/src/stream.rs:173-194 | After the header loop the reader holds a decodable header, or stands at rest in a partial or undecodable one with nothing lost |
| `Stream.ChunkReader.FillHeader` | crates/oxtransport/src/stream.rs:173-184 | The header buffer holds exactly the bytes consumed since the chunk began, also when the call is dropped between reads |
| `Stream.ChunkReader.FillPayload` | crates/oxtransport/src/stream.rs:195-204 | Header plus filled payload are exactly the bytes consumed since the chunk began, also when the call is dropped between reads |
| `Stream.ChunkReader.PayloadPhase` | crates/oxtransport/src/stream.rs:195-213 | A payload phase either stops at rest inside the chunk or advances the processed stream past exactly one chunk |
| `Stream.ChunkReader.FinishChunk` | crates/oxtransport/src/stream.rs:205-213 | A completed chunk makes one step of the reassembler and leaves the reader between chunks |
| `Stream.ChunkReader.constructor` | crates/oxtransport/src/stream.rs:155-161 | A new reader represents the empty stream |
| `Framing.StreamRefinesQueue` | crates/oxtransport/src/stream.rs:94-118 | On bytes: every prefix of a conforming stream yields a prefix of the messages sent, the whole stream yields them all, and no header met on the way is undecodable |
| `Framing.ScanInvertsWrite` | crates/oxtransport/src/stream.rs:94-118 | Scanning the bytes of any framed chunk list gives back that list with nothing left over |
| `Framing.ScanResumes` | crates/oxtransport/src/stream.rs:94-118 | Scanning can stop at any chunk boundary and resume: chunks concatenate, the remainder is that of the second part |
| `Framing.ChunksMonotone` | crates/oxtransport/src/stream.rs:94-118 | Bytes that arrive later never change the chunks already recognised |
| `Framing.QueuePasses` | crates/oxproto/src/envelope.rs:211-286 | Messages within their limits sent one after another pass an idle receiver without any refusal and leave it idle |
| `Interleaving.InterleavedDelivery` | crates/oxproto/src/envelope.rs:147-286 | For every interleaving that keeps each channel's own order and never has more than 64 channels or 64 MiB in flight, nothing on a channel is refused, its deliveries are a prefix of what was sent on it (empty messages included), and once all its chunks are in, everything has been delivered and the channel is idle |
| `Interleaving.ChannelsIndependent` | crates/oxproto/src/envelope.rs:211-286 | As long as no shared cap refuses a chunk, the receiver is a product of independent single-channel receivers: outcomes and buffers of a channel depend on its own chunks only |
| `Interleaving.CapsExact` | crates/oxproto/src/envelope.rs:228-240 | A shared cap fires during a run if and only if at some chunk the schedule itself has 64 other channels or more than 64 MiB in flight |
| `Interleaving.EveryRunBounded` | crates/oxproto/src/envelope.rs:211-296 | For every chunk sequence whatsoever, after refusals too: at most 64 channels, at most 64 MiB, every buffer within its type's limit, every delivered message within its type's limit |
| `Interleaving.LaneDelivers` | crates/oxproto/src/envelope.rs:147-175 | The fragments of any message list within limits are delivered as that list by one channel, with no refusal |
| `Interleaving.LanePrefix` | crates/oxproto/src/envelope.rs:147-175 | Cutting the fragments short only cuts the deliveries short |
| `Envelope.Reassembler.Receive` | crates/oxproto/src/envelope.rs:211-286 | Any chunk at all keeps `pending_bytes` equal to the sum of buffered lengths and all caps, and acts as the value-level receiver does; deliveries are within their type's limit |
| `Envelope.Reassembler.Accumulate` | crates/oxproto/src/envelope.rs:242-285 | The hand-kept byte count stays the sum of the buffers on the append, completion, type-change and over-limit paths |
| `Envelope.PushBounded` | crates/oxproto/src/envelope.rs:228-285 | One chunk preserves all caps whatever its header says |
| `Envelope.CapRefusalExact` | crates/oxproto/src/envelope.rs:228-240 | A well-formed chunk is refused by a cap exactly when it needs buffering and its channel would be the 65th in flight, or the bytes in flight would exceed 64 MiB with it |
| `Envelope.LaneStepExact` | crates/oxproto/src/envelope.rs:211-286 | Exactly when a chunk is refused for its length, its type or its message's size, which of these abandon the message in flight, and what is buffered or delivered otherwise |
| `Envelope.LimitsExact` | crates/oxproto/src/envelope.rs:110-142 | No type's limit is below 4 KiB or above half of what is buffered in all, and only frames reach that |
| `Envelope.HeaderRoundTrip` | crates/oxproto/src/envelope.rs:69-108 | Decoding inverts encoding on every header that may be sent, clears reserved flag bits, and refuses a length above 32 KiB |
| `Envelope.Fragment` | crates/oxproto/src/envelope.rs:147-175 | The offset loop produces exactly the recursive fragmentation: full pieces marked as continuing, then one last piece, which is there for the empty message too |
| `Envelope.FragmentsAt` | crates/oxproto/src/envelope.rs:153-172 | Where the offset loop stands, what remains is the fragmentation of the remaining payload |
| `Envelope.FragmentsShape` | crates/oxproto/src/envelope.rs:147-175 | A message is cut into ceil(n / 32768) chunks, at least one; the i-th holds the i-th 32768 bytes, and exactly the last says that none follows |
| `Annexb.SplitInvertsJoin` | crates/oxagent/src/h264.rs:51-85 | Splitting inverts the 4-byte join for every list of non-empty units without 00 00 01 |
| `Annexb.SplitInvertsBytes` | crates/oxagent/src/h264.rs:51-85 | For any mixture of 3- and 4-byte start codes and anything without one in front, the units found are the units put there |
| `Annexb.EveryStreamCut` | crates/oxagent/src/h264.rs:51-85 | Every byte string is of that form |
| `Annexb.SplitExact` | crates/oxagent/src/h264.rs:51-85 | So for any bytes the split is the list of non-empty stretches between start codes, in order |
| `Annexb.SplitClean` | crates/oxagent/src/h264.rs:51-85 | Every unit split out of any bytes is non-empty and free of 00 00 01 |
| `Annexb.ScanMatchesSplit` | crates/oxagent/src/h264.rs:51-85 | Cutting between collected start codes equals the recursive split at every offset |
| `Annexb.CollectStarts` | crates/oxagent/src/h264.rs:51-69 | The index loop finds exactly the start codes, 3-byte and 4-byte, that a recursive scan finds |
| `Annexb.SplitAnnexb` | crates/oxagent/src/h264.rs:51-85 | The two loops compute the recursive split |
| `Reframe.KeyframesCarryParameters` | crates/oxagent/src/h264.rs:125-204 | Over every run from an empty cache: a unit with an IDR slice goes out with the latest SPS ever seen directly followed by the latest PPS, after delimiter and SEI and before its slices, each missing if and only if none was ever seen; any other unit goes out in the same order and carries neither |
| `Reframe.ReframeIdempotent` | crates/oxagent/src/h264.rs:125-204 | Reframing an already reframed unit with the cache left behind changes neither bytes, cache nor keyframe flag |
| `Reframe.UnitsSurvive` | crates/oxagent/src/h264.rs:125-204 | Delimiters, SEI, slices and all other units survive to the bytes sent, each class in its original order, whichever start codes the encoder used |
| `Reframe.UnitsOrdered` | crates/oxagent/src/h264.rs:154-203 | In every unit sent, position by position: the delimiter first if there was one, then SEI, SPS, PPS, slices, the rest |
| `Reframe.LastOrExact` | crates/oxagent/src/h264.rs:128-153 | The cached set is the one after which none of its kind comes |
| `Reframe.IdrExact` | crates/oxagent/src/h264.rs:128-153 | A unit is a keyframe exactly if it has a NAL unit of type 5 |
| `Reframe.LayoutPreserves` | crates/oxagent/src/h264.rs:154-203 | On unit lists: no class other than parameter sets loses, gains or reorders a member |
| `Reframe.LayoutIdempotent` | crates/oxagent/src/h264.rs:154-203 | Laying out a layout changes nothing |
| `Reframe.CacheIsLatest` | crates/oxagent/src/h264.rs:128-170 | After any run the cache holds the last SPS and the last PPS of everything seen |
| `Reframe.BareKeyframe` | crates/oxagent/src/h264.rs:172-195 | The documented promise of parameter sets on every keyframe fails for a keyframe met before any were seen: a concrete unit |
| `ReframeLoop.ReframeUnit` | crates/oxagent/src/h264.rs:125-204 | The slot-filling loop and the writes in sequence equal the filter-based specification, cache included |
| `ReframeLoop.Classify` | crates/oxagent/src/h264.rs:128-153 | One pass fills the slots that independent filters of the unit list would |
| `ReframeLoop.SlotsSnoc` | crates/oxagent/src/h264.rs:128-153 | One more unit changes exactly its own slot |
| `ReframeLoop.Emit` | crates/oxagent/src/h264.rs:165-201 | The bytes written are the join of the slots in order, cached sets standing in for missing ones on a keyframe |
| `ReframeLoop.PushAll` | crates/oxagent/src/h264.rs:109-112 | Appending units one by one extends a join by exactly those units |
| `Bits.UnescapeInverts` | crates/oxagent/src/h264.rs:279-295 | Removing emulation prevention inverts inserting it (section 7.4.1.1 of H.264), starting inside any run of zeros |
| `Bits.EscapeHasNoStartCode` | crates/oxagent/src/h264.rs:279-295 | Escaped bytes never contain 00 00 01 |
| `Bits.UnescapeExact` | crates/oxagent/src/h264.rs:279-295 | For any bytes, exactly the 03 bytes right behind two zero bytes are removed |
| `Bits.UnescapeRbsp` | crates/oxagent/src/h264.rs:279-295 | The loop with its zero counter computes that removal |
| `Bits.BitsOfPack` | crates/oxagent/src/h264.rs:316-321 | Reading bytes most significant bit first inverts packing |
| `Golomb.UeRoundTrip` | crates/oxagent/src/h264.rs:335-348 | ue(v) decoding inverts encoding for every value up to 2^32 - 2, leaving the following bits untouched |
| `Golomb.SeRoundTrip` | crates/oxagent/src/h264.rs:351-359 | se(v) decoding inverts encoding for every value of magnitude below 2^31 |
| `Golomb.UeFits` | crates/oxagent/src/h264.rs:335-348 | No bit string decodes to more than 2^32 - 2, so the sum cannot overflow |
| `Golomb.UeExact` | crates/oxagent/src/h264.rs:335-348 | Which bit strings start with a readable code, what it stands for and what is left, for every bit string |
| `Golomb.BitReader.Bit` | crates/oxagent/src/h264.rs:316-321 | The byte-and-shift arithmetic reads the next bit, and fails only at the end |
| `Golomb.BitReader.U` | crates/oxagent/src/h264.rs:324-330 | The shift-accumulate loop reads the value of the next n bits without wrapping 32 bits |
| `Golomb.BitReader.LeadingZeros` | crates/oxagent/src/h264.rs:336-342 | The zero-counting loop gives up exactly beyond 31 zeros or at the end |
| `Golomb.BitReader.Ue` | crates/oxagent/src/h264.rs:335-348 | The cursor computes the code value in 32 bits with no overflow, and fails exactly when there is no code |
| `Golomb.BitReader.Se` | crates/oxagent/src/h264.rs:351-359 | The signed mapping stays within i32 for every code |
| `Sps.SpsBodyRoundTrip` | crates/oxagent/src/h264.rs:391-432 | For every codable parameter set (type 0, 1 or 2, up to 255 cycle offsets) with its coded body escaped, the parser returns the written max_num_ref_frames and pic_order_cnt_type, or declines if the profile is in the chroma list |
| `Sps.SpsRoundTrip` | crates/oxagent/src/h264.rs:391-432 | For every codable parameter set escaped from its first byte on, what the parser answers: nothing for a declined profile, the written fields if no escape falls into the fixed prefix or on the border behind it, and otherwise what the shifted body it then sees happens to say |
| `Sps.BodySeenExact` | crates/oxagent/src/h264.rs:391-400 | For a unit escaped from its first byte on, what the parser unescapes is the coded body written if and only if no escape falls into the fixed prefix or on the border behind it |
| `SpsMisread.Misread` | crates/oxagent/src/h264.rs:391-432 | A legally written unit with a zero level byte for which the parser answers pic_order_cnt_type 45 instead of 2 |
| `Sps.WrittenNalClean` | crates/oxagent/src/h264.rs:391-432 | A written parameter set can be delimited in a byte stream |
| `Sps.SpsFoundInUnit` | crates/oxagent/src/h264.rs:436-441 | That answer is also what a written parameter set gives from the joined bytes of an access unit, wherever it stands in it, if it is the first of its kind |
| `Sps.SpsRefFrameInfo` | crates/oxagent/src/h264.rs:391-432 | The cursor walk, with every early return, equals the walk on bit sequences |
| `Sps.SkipSigned` | crates/oxagent/src/h264.rs:421-423 | The offset loop skips exactly n codes or fails where the sequence does |
| `Sps.SkipCycleFields` | crates/oxagent/src/h264.rs:411-423 | The type 1 fields are skipped exactly; a cycle above 255 is declined |
| `Sps.SkipPocFields` | crates/oxagent/src/h264.rs:406-426 | The fields skipped are those of the picture order count type |
| `Sps.FinishWalk` | crates/oxagent/src/h264.rs:405-432 | From the type on, the cursor reads the same field the specification does |
| `Sps.LongCycleDeclined` | crates/oxagent/src/h264.rs:411-423 | A cycle of more than 255 offsets is declined |
| `WindowMessages.FlagsDecode` | crates/oxagent/src/serve.rs:614-632 | The client reads back from the flag word exactly the booleans the agent packed, for all 32 combinations |
| `ClientModel.EveryRunWellStacked` | crates/oxclient/src/model.rs:180-303 | For every event sequence, unknown ids, repeats and self-references included, the stack is a duplicate-free ordering of exactly the open windows |
| `ClientModel.ApplyWellStacked` | crates/oxclient/src/model.rs:180-226 | Each event keeps that |
| `ClientModel.RestackKeeps` | crates/oxclient/src/model.rs:277-303 | Restacking keeps the same windows, without duplicates, the others in unchanged relative order |
| `ClientModel.RestackPlaces` | crates/oxclient/src/model.rs:277-303 | Against another known window the restacked one ends directly above it; against 0, at the bottom |
| `ClientModel.TargetExact` | crates/oxclient/src/model.rs:285-301 | The early exit is taken if and only if the window already stands where asked, a restack against itself aside |
| `ClientModel.SelfRestackExact` | crates/oxclient/src/model.rs:285-301 | Against itself a window stays if and only if it is topmost, otherwise changes places with its upper neighbour, and in both cases the event is reported as a restack |
| `ClientModel.RestackIsMove` | crates/oxclient/src/model.rs:285-301 | The remove-and-insert index arithmetic computes the order-based restack |
| `ClientModel.QuietEventsChangeNothing` | crates/oxclient/src/model.rs:180-303 | An event that produces no work for the backend has changed nothing |
| `ClientModel.BackendConsistent` | crates/oxclient/src/model.rs:180-303 | A backend that executes the instructions in order, looking up only what each one names, shows exactly the model after every run of events |
| `ClientModel.BackendFollows` | crates/oxclient/src/model.rs:180-303 | The same for one event |
| `ClientModel.InstructedExact` | crates/oxclient/src/model.rs:180-303 | Apart from icons, the cursor, what passes through and self-restacks, there is an instruction exactly if something changed |
| `ClientModel.EventTakesEffect` | crates/oxclient/src/model.rs:228-274 | An update leaves its window with the value it carries and touches nothing else |
| `ClientModel.EventOutcome` | crates/oxclient/src/model.rs:208-226 | What opening, closing, cursor visibility and passed events leave behind |
| `ClientModel.WindowModel.OnZOrder` | crates/oxclient/src/model.rs:277-303 | The in-place handler, with its index shifts, equals the order-based restack |
| `ClientModel.WindowModel.OnWindow` | crates/oxclient/src/model.rs:228-274 | Each update touches its own field of its own window and reports a change only if there is one |
| `ClientModel.WindowModel.ApplyEvent` | crates/oxclient/src/model.rs:180-226 | The object follows the value-level fold on every event and stays well stacked |
| `Registry.WindowRegistry.Track` | crates/oxagent/src/registry.rs:39-68 | Used and free channels partition [16, next_channel), maps stay inverse, ids are fresh; and next_channel - 16 is the peak number of windows ever tracked at once |
| `Registry.WindowRegistry.Forget` | crates/oxagent/src/registry.rs:83-88 | The same is kept when a window goes; the peak is unchanged |
| `Registry.WindowRegistry.RetainLive` | crates/oxagent/src/registry.rs:93-116 | Exactly the windows that are not live are forgotten, reported in ascending id order, all others untouched |
| `Registry.WindowRegistry.ById` | crates/oxagent/src/registry.rs:76-79 | Lookup by id finds a window if and only if some handle carries that id |
| `Registry.InsertValid` | crates/oxagent/src/registry.rs:39-68 | A new window keeps the partition of channels and the two inverse maps |
| `Registry.RemoveValid` | crates/oxagent/src/registry.rs:83-88 | A removed window's channel moves from used to free, keeping the partition |
| `Registry.RetainStep` | crates/oxagent/src/registry.rs:93-116 | Forgetting the smallest departed id extends the sorted list of the departed |
| `Registry.FreedReusedFirst` | crates/oxagent/src/registry.rs:44-59 | The channel given back last is handed out first |
| `Registry.ExhaustedExact` | crates/oxagent/src/registry.rs:39-68 | A new window is refused exactly when the last id has been reached or every channel from 16 to 65534 is in use |
| `Pacing.EveryRunContiguous` | crates/oxagent/src/pacing.rs:45-99 | Over every run of captures, acknowledgements of any id and restarts, the deque is exactly the contiguous ids ending at the newest sent, or empty, and within budget |
| `Pacing.FramesNumbered` | crates/oxagent/src/pacing.rs:45-56 | The i-th operation, if a capture, is numbered by how many captures came before it |
| `Pacing.LateAcksRetireNothing` | crates/oxagent/src/pacing.rs:64-99 | An acknowledgement for a frame sent before a restart retires nothing, whatever happened since |
| `Pacing.AckExact` | crates/oxagent/src/pacing.rs:64-72 | An acknowledgement retires exactly the frames up to the one it names |
| `Pacing.CaptureExact` | crates/oxagent/src/pacing.rs:45-56 | The new frame is always admitted; the oldest, and only that, loses its place exactly when the budget is used up, and is counted |
| `Pacing.FrameBudget.OnCaptured` | crates/oxagent/src/pacing.rs:45-56 | The newest frame always gets a slot, displacing the oldest at the limit, contiguity kept |
| `Pacing.FrameBudget.OnAck` | crates/oxagent/src/pacing.rs:64-72 | The popping loop retires exactly the ids up to the acknowledged one |
| `Pacing.FrameBudget.Restart` | crates/oxagent/src/pacing.rs:97-99 | Nothing is in flight and numbering goes on |
| `WindowStream.KeyframeRequestExact` | crates/oxagent/src/serve.rs:765-1002 | Over every run of one window, the keyframe request is withdrawn if and only if an H.264 keyframe was sent since it opened or last changed size |
| `WindowStream.SentFramesNumbered` | crates/oxagent/src/serve.rs:838-1002 | Over every run of one window, sent frames carry consecutive ids through resizes, drops and acknowledgements |
| `WindowStream.BudgetContiguous` | crates/oxagent/src/serve.rs:765-1002 | Over every run of one window, its deque stays the contiguous newest ids within budget |
| `WindowStream.KeyframeStep` | crates/oxagent/src/serve.rs:765-1002 | A step raises the request on a size change and lowers it only by sending an H.264 keyframe |
| `WindowStream.PumpExact` | crates/oxagent/src/serve.rs:838-1002 | A window sends a frame if and only if it is not minimized, the queue has a slot and capture answered with something ready; which codec and keyframe flag the frame then has |
| `WindowStream.AnnounceExact` | crates/oxagent/src/serve.rs:706-796 | A diff sends title, state and geometry messages exactly for what changed, each at most once and in that order; an unchanged window is not mentioned |
| `WindowStream.LivesNumbers` | crates/oxagent/src/pacing.rs:45-56 | A window that ran from its opening and sent n frames is about to use id n + 1 |
| `WindowStream.StaleAckIgnored` | crates/oxagent/src/pacing.rs:64-99 | Whatever a window goes through after an observation that restarted its budget, acknowledging a frame sent before it changes nothing |
| `Mirror.OpenMirrors` | crates/oxagent/src/serve.rs:614-645 | The client's picture of a newly announced window matches the agent's if and only if the window is not both minimized and maximized |
| `Mirror.OpenTells` | crates/oxagent/src/serve.rs:663-683 | The announcement gives the client every field it keeps of a window, as the agent has it |
| `Mirror.AnnounceReports` | crates/oxagent/src/serve.rs:706-796 | After a diff the stream records the live title, show state, flags and, unless minimized, geometry |
| `Mirror.FollowsOpen` | crates/oxagent/src/serve.rs:663-705 | An announcement is legal for the client and keeps it in step with the agent |
| `Mirror.FollowsAnnounce` | crates/oxagent/src/serve.rs:706-796 | Every diff of an announced window keeps the client in step after each single message |
| `Mirror.FollowsClose` | crates/oxagent/src/serve.rs:799-811 | A close names an open window and keeps the client in step |
| `Sessions.RunSession` | crates/oxagent/src/serve.rs:433-607 | Main session theorem, for any sequence of ticks, any number of window messages the outbound queue takes each tick, any oracle answers and acknowledgements: no id is announced twice, every update or close names an open window, open windows have distinct channels; folding the messages into the client gives exactly the windows it was told of, and after the last tick exactly its live windows with live title and show state, and live geometry unless minimized; each window's frames are numbered 1, 2, 3, ...; every open window stands exactly where the observations, sending turns and acknowledgements that the steps hold for it since it opened put it, with exactly the frames of that life in the log, one for each tick at which it was seen not minimized, the queue had a slot and something was ready; as many channels were handed out as the most windows that were open at once; the run stops early only where ids or channels have run out, or where the queue refuses a window message, and then the client lacks just that one: it would have been legal, and with it the client would mirror the agent's streams, or the agent tracks the unannounced window without a stream |
| `Serve.Agent.SyncWindows` | crates/oxagent/src/serve.rs:649-813 | One tick's messages are each legal when sent and leave the client in step, and are exactly the announcements of the new windows and the changes of the others, in order, followed by closings; then the agent tracks exactly the live windows, each its former stream having observed the live window or newly opened, or has no id or channel left, or was refused a message after as many as the queue took: the refused one is the very next due, and just what the client lacks |
| `Serve.Agent.ObserveAll` | crates/oxagent/src/serve.rs:663-797 | After the loop every live window is placed by its own observation relative to the start of the tick, or the loop stopped at the first refused message, the next one due, or for lack of ids or channels |
| `Serve.Agent.ObserveWindow` | crates/oxagent/src/serve.rs:663-797 | Observing one live window brings it up to date and disturbs no other, or stops at the first message refused |
| `Serve.Agent.OpenWindow` | crates/oxagent/src/serve.rs:663-705 | A first sighting gets a never used id and a channel no open window has; if its announcement is refused, the handle stays tracked and gets no stream |
| `Serve.Agent.UpdateWindow` | crates/oxagent/src/serve.rs:706-796 | An update keeps id and channel, and frame numbering; a refused part is recorded by the agent and is the only thing the client lacks |
| `Mirror.FollowsWithin` | crates/oxagent/src/serve.rs:706-796 | However few messages the queue takes, the client follows those sent to the stream as it was told, exactly as many as there was room for were sent if one is refused, those sent and the refused one are the first messages of the full diff, and with the refused one the client would have followed to the stream as the agent has it |
| `Serve.Agent.CloseGone` | crates/oxagent/src/serve.rs:799-811 | Exactly the departed windows are closed, each still open when its close is sent; if a close is refused, all departed handles are forgotten already but only the streams up to that one |
| `Serve.FollowsClosings` | crates/oxagent/src/serve.rs:799-811 | Closing any sorted list of open windows is legal message by message |
| `Serve.Agent.PumpFrames` | crates/oxagent/src/serve.rs:838-1002 | Each window sends at most one frame, determined by its own stream and oracle alone, and nothing announced changes |
| `FrameLog.PumpBelow` | crates/oxagent/src/serve.rs:838-1002 | The loop over windows lets no window influence another's frame |
| `FrameLog.SentThisTick` | crates/oxagent/src/serve.rs:838-1002 | What a tick adds to a window's frames is what its own stream and oracle give, once |
| `History.StoriedSeen` | crates/oxagent/src/serve.rs:649-813 | A diff extends the recorded life of every live window by its own observation, opens a life at the window's first sighting under an id that has sent nothing, and ends those of the departed |
| `History.StoriedSent` | crates/oxagent/src/serve.rs:838-1002 | A tick's frames extend each window's recorded life by its own turn to send, and the log by exactly the frames that life then has sent |
| `History.StoriedAck` | crates/oxagent/src/serve.rs:445-449 | An acknowledgement extends the recorded life of the window it names, if that is open, and no other |
| `History.KeyframesExact` | crates/oxagent/src/serve.rs:765-1002 | In a session, a keyframe is asked of an open window if and only if its recorded life holds no H.264 keyframe sent since it opened or last changed size; once not asked for, one is among its frames in the log |
| `History.FramesExact` | crates/oxagent/src/serve.rs:838-1002 | In a session, the frames of every open window are exactly those due: one at each tick at which it was seen not minimized, the queue had a slot and capture answered with something ready, with codec and keyframe flag, and no other |
| `History.StaleAcksIgnored` | crates/oxagent/src/pacing.rs:64-99 | In a session, acknowledging a frame a window sent before an observation that restarted its budget changes nothing, however late |
| `History.BudgetsExact` | crates/oxagent/src/pacing.rs:45-99 | In a session, the frames in flight of every open window are the contiguous newest ids it sent, no more than the session's budget |
| `FrameLog.NumberedFrames` | crates/oxagent/src/serve.rs:838-1002 | Appending a tick's frames to the log of a session keeps every window's numbering gapless |
| `Serve.Agent.OnFrameAck` | crates/oxagent/src/serve.rs:445-449 | An acknowledgement touches only its window's budget; for a window not open it is ignored |
| `Sessions.InStepShows` | crates/oxclient/src/model.rs:180-265 | Being in step with an up-to-date agent means showing exactly the live windows |
| `Serve.FreshFor` | crates/oxagent/src/registry.rs:39-68 | A freshly issued id and channel are those of no open stream |
| `Sessions.Session.OnTick` | crates/oxagent/src/serve.rs:590-607 | A whole tick keeps the client in step and the frames accounted for and, when it completes, has caught up with the live list; no frame is sent once the queue has refused a window message |
| `Sessions.Session.Diff` | crates/oxagent/src/serve.rs:649-813 | A diff adds only legal messages, no more than the queue takes, and sends no frame; it catches up with the live list, or runs out of ids or channels, or fills the queue and leaves the client short of just the refused message |
| `Sessions.Session.Frames` | crates/oxagent/src/serve.rs:838-1002 | This tick's frames are added to the log in order and change nothing the client shows |
| `Sessions.Session.Acknowledge` | crates/oxagent/src/serve.rs:445-449 | An acknowledgement changes one budget and nothing the client shows |
| `Sessions.Session.Run` | crates/oxagent/src/serve.rs:433-607 | Ticks and acknowledgements in any order keep all of that; the live list caught up with is that of the last tick; a run is cut short by the queue only at a tick that sent as many window messages as the queue took |
| `GeometryIntent.HostTranslationInvariant` | crates/oxclient/src/geometry.rs:89-188 | Between two arming events, adding one constant to all host positions reported for a window changes no request sent, saturation included |
| `GeometryIntent.ArmedTranslationInvariant` | crates/oxclient/src/geometry.rs:89-188 | From the moment a window is armed, what is sent does not depend on where the host puts its screen origin |
| `GeometryIntent.SettlingReportsDoNotMatter` | crates/oxclient/src/geometry.rs:124-188 | Deleting every report made while settling changes neither what is sent nor the final state |
| `GeometryIntent.AnchorIsDisplacement` | crates/oxclient/src/geometry.rs:124-150 | Short of saturation, the guest anchor always equals the armed position plus the displacement since the first report after settling |
| `GeometryIntent.ReportsAnswered` | crates/oxclient/src/geometry.rs:124-188 | Between arming events, saturation or not: a position report is answered by a move if and only if it comes 750 ms or more after arming, is not the first to do so and differs from the one before; a size report by that very size if and only if the same holds of it and the window is resizable |
| `GeometryIntent.SentMoveIsDisplacement` | crates/oxclient/src/geometry.rs:124-150 | Short of saturation, every position report is answered by the armed position plus the displacement since the first report that counts, or by nothing, exactly as `ReportsAnswered` says |
| `GeometryIntent.ArmingExact` | crates/oxclient/src/geometry.rs:89-118 | What arms a window and with what; forgetting ends it |
| `GeometryIntent.UnknownSilent` | crates/oxclient/src/geometry.rs:105-188 | A window that was not created, or was forgotten, answers nothing and changes nothing |
| `GeometryIntent.OthersUntouched` | crates/oxclient/src/geometry.rs:89-188 | No event touches another window's anchors |
| `GeometryIntent.GeometrySync.OnMoved` | crates/oxclient/src/geometry.rs:124-150 | The in-place tracker equals the run function those laws are about |
| `GeometryIntent.GeometrySync.OnResized` | crates/oxclient/src/geometry.rs:155-188 | Sizes that are zero, repeated, first since arming, unresizable or unknown send nothing; any other is sent |
| `GeometryIntent.GeometrySync.OnCreated` | crates/oxclient/src/geometry.rs:89-102 | A new window is armed |
| `GeometryIntent.GeometrySync.OnGuestMoved` | crates/oxclient/src/geometry.rs:105-113 | A known window is rearmed at the guest's position; an unknown one is not invented |
| `GeometryIntent.GeometrySync.OnForget` | crates/oxclient/src/geometry.rs:116-118 | Only that window is forgotten |
| `Samples.Record` | crates/oxproto/src/latency.rs:12-33 | Any number of pushes into a ring leaves exactly the last min(k, capacity) values in order |
| `Samples.SampleRing.Push` | crates/oxproto/src/latency.rs:25-33 | The view becomes the last `capacity` values of the old view and the new value |
| `Samples.SampleRing.Collect` | crates/oxproto/src/latency.rs:95-104 | The modular index arithmetic reads the view oldest first |
| `Samples.SampleRing.PercentileOf` | crates/oxproto/src/latency.rs:82-93 | The ring's percentile is that of its view |
| `Samples.PercentileIsNearestRank` | crates/oxproto/src/latency.rs:82-93 | The percentile is a sample with at least p percent of the samples at or below it, and no smaller value has that many |
| `Samples.PercentileMonotone` | crates/oxproto/src/latency.rs:82-93 | A higher percentile is never smaller |
| `Samples.PercentileClamped` | crates/oxproto/src/latency.rs:82-93 | A percentile beyond 100 is the hundredth |
| `Samples.SmallWindowsReportMax` | crates/oxclient/src/latency.rs:921-949 | p95 is the maximum below 20 samples and p99 below 100, as the report assumes |
| `Samples.TopRankExact` | crates/oxclient/src/latency.rs:921-949 | 20 and 100 are exactly where the rank stops being the top one |
| `Clock.EstimateWithinBound` | crates/oxclient/src/session.rs:49-93 | Over every run of pings and genuine pongs in any order, with at most 100 ppm drift, the chosen sample's offset is within its stated bound plus 2 microseconds, and no kept candidate has a smaller bound |
| `Clock.OffsetWithinHalfTrip` | crates/oxproto/src/latency.rs:159-183 | However unequal the two directions, the offset is wrong by at most half the round trip rounded up |
| `Clock.ReportedBoundExact` | crates/oxproto/src/latency.rs:196-202 | The rounded-down bound reported holds if and only if the round trip is even or the agent did not stamp at the instant of arrival |
| `Clock.ReportedBoundExceeded` | crates/oxproto/src/latency.rs:196-202 | A concrete exchange that exceeds the reported bound |
| `Clock.StaleSound` | crates/oxclient/src/session.rs:289-300 | A late answer pushes the newer exchange's offset with its own, longer round trip, which still covers the error |
| `Clock.RunSound` | crates/oxclient/src/session.rs:289-300 | Every candidate kept after any run is within half its round trip plus half a microsecond of the truth at its time |
| `Clock.SampleWithinBound` | crates/oxclient/src/session.rs:49-56 | Ageing a sample costs at most its drift allowance plus truncation |
| `Clock.BestIsSmallest` | crates/oxclient/src/session.rs:88-93 | The chosen candidate is one of those kept, with the smallest bound |
| `Clock.BestIsFirst` | crates/oxclient/src/session.rs:88-93 | Among equally good candidates the oldest is chosen |
| `Clock.ErrorBoundTight` | crates/oxclient/src/session.rs:49-56 | The stated bound is half the round trip plus 100 ppm of the age, less than 2 microseconds short of it |
| `Clock.RecentExact` | crates/oxclient/src/session.rs:80-85 | After any run the candidates are the samples of the last 64 answered pings, in order |
| `Clock.AppliedNewest` | crates/oxproto/src/latency.rs:159-183 | After any run the offset is that of the answered ping that was sent last, of those sent at once the one answered last |
| `Clock.PongArm` | crates/oxclient/src/session.rs:289-300 | Estimator and candidates together make the step the run theorems are about |
| `Clock.ClockSync.OnPong` | crates/oxproto/src/latency.rs:159-183 | An unknown sequence number changes nothing; an answer to an older ping leaves the offset alone; every answer is one more round trip in the sample window |
| `Clock.PingAnswered` | crates/oxproto/src/latency.rs:147-163 | Whatever other pings and pongs come in between, the first pong with a ping's number is measured from the moment that ping was sent, and a second one is ignored |
| `Clock.OffsetEstimate.Push` | crates/oxclient/src/session.rs:80-85 | At most 64 candidates are kept, the oldest giving way |
| `Clock.OffsetEstimate.BestAt` | crates/oxclient/src/session.rs:88-93 | The loop finds the first candidate with the smallest bound |
| `FrameLatency.ArrivalsConserved` | crates/oxclient/src/latency.rs:372-525 | When no frame id arrives twice on a window, arrivals since it was last forgotten equal presented plus dropped plus in flight, at most 256 of the last, after every run |
| `FrameLatency.FramesConserved` | crates/oxclient/src/latency.rs:372-525 | With reused ids too: only the arrival of a frame not in flight adds to a window's account, and nothing but forgetting it takes away |
| `FrameLatency.TimelineConserved` | crates/oxclient/src/latency.rs:483-501 | Timeline length plus evicted count grows by exactly the frames presented |
| `FrameLatency.StagesAddUp` | crates/oxclient/src/latency.rs:452-466 | The four stages add up to at least the total, and to exactly the total if and only if the timestamps are ordered (or wholly reversed) |
| `FrameLatency.StagesExact` | crates/oxclient/src/latency.rs:452-466 | Each of the six figures is the difference of its own two points in time, or zero if that is negative |
| `FrameLatency.PresentedExact` | crates/oxclient/src/latency.rs:440-503 | A presented frame gets the figures of its own arrival and its own latest decode, or none if it is not in flight |
| `FrameLatency.TimelineIsLatest` | crates/oxclient/src/latency.rs:483-501 | The timeline is the last 2048 frames completed, in order |
| `FrameLatency.PresentedCounted` | crates/oxclient/src/latency.rs:440-503 | The count of presented frames counts exactly those figures were handed out for |
| `FrameLatency.ArrivalExact` | crates/oxclient/src/latency.rs:372-422 | An arrival beyond 256 in flight costs the smallest id its place, and only that |
| `FrameLatency.WinStepAccounts` | crates/oxclient/src/latency.rs:372-515 | One event changes a window's account by one for a new arrival and by nothing otherwise, evictions included |
| `FrameLatency.LatencyMonitor.OnArrival` | crates/oxclient/src/latency.rs:372-422 | At most 256 frames in flight; the account of the other windows is untouched |
| `FrameLatency.LatencyMonitor.OnDecoded` | crates/oxclient/src/latency.rs:425-434 | Only a frame in flight is stamped |
| `FrameLatency.LatencyMonitor.OnPresented` | crates/oxclient/src/latency.rs:440-503 | A frame in flight moves to the timeline with its stages; a frame never seen arriving is not invented |
| `FrameLatency.LatencyMonitor.OnDropped` | crates/oxclient/src/latency.rs:506-515 | A frame in flight is counted as dropped once |
| `FrameLatency.LatencyMonitor.OnForget` | crates/oxclient/src/latency.rs:521-525 | Only that window is forgotten |
| `FrameLatency.EvictOldest` | crates/oxclient/src/latency.rs:415-421 | The eviction loop gives up the one oldest frame |
| `Presenter.BlitPixels` | crates/oxdisplay/src/presenter.rs:344-382 | For all frame and surface sizes every row copy is inside both buffers, and the final surface is the frame where the rectangles overlap and zero elsewhere, whatever it held before |
| `Presenter.ShowsPixels` | crates/oxdisplay/src/presenter.rs:344-382 | In coordinates: byte k of pixel (x, y) is the frame's inside the frame and zero outside |
| `Presenter.CopyRow` | crates/oxdisplay/src/presenter.rs:368-380 | One row copy changes exactly its own range |
| `Presenter.CpuWindow.Present` | crates/oxdisplay/src/presenter.rs:181-209 | A frame of another codec or wrong size is refused and changes nothing; any other is shown and cached |
| `Presenter.CpuWindow.Refresh` | crates/oxdisplay/src/presenter.rs:211-227 | The cached frame is shown whatever was on the surface and however it was resized |
| `Presenter.CpuWindow.Resize` | crates/oxdisplay/src/presenter.rs:165-179 | The surface takes the new size, no side below one pixel; the cached frame is kept |
| `Presenter.CpuWindow.constructor` | crates/oxdisplay/src/presenter.rs:139-163 | A new window has no cached frame and no side below one pixel |
| `Connector.RunPrescribed` | crates/oxrdp-core/src/connector.rs:157-308 | For every input sequence, misuse and failures included, what has been emitted is the prescribed conversation for the state reached: request, TLS upgrade if selected, Connect-Initial, Erect Domain, Attach User, one join per entry of [user, io] and the virtual channels, result |
| `Connector.StepPrescribed` | crates/oxrdp-core/src/connector.rs:157-308 | An accepted step extends the prescribed conversation by exactly its outputs; a failed step leaves all progress unchanged |
| `Connector.ConfirmsComplete` | crates/oxrdp-core/src/connector.rs:157-308 | For every run from the start: connected if and only if the server has announced its channels and two more join confirms than announced channels were accepted; while joining, the join requests sent are those of the confirmed channels and one more, in announced order; once connected, those of all of them |
| `Connector.JoinsAnnounced` | crates/oxrdp-core/src/connector.rs:218-264 | The channels joined stay the ones the server announced |
| `Connector.ServerValues` | crates/oxrdp-core/src/connector.rs:197-286 | In every run that connects, joins and result carry the server's own user id, channels and protocol, and TLS was entered exactly if it selected something other than plain RDP |
| `Connector.AcceptedExact` | crates/oxrdp-core/src/connector.rs:157-286 | A step succeeds exactly on the one input its state waits for, a server's answer only with result zero; which error it is otherwise |
| `Connector.ClientConnector.OnStart` | crates/oxrdp-core/src/connector.rs:157-175 | Starting twice is refused without effect |
| `Connector.ClientConnector.OnResumeAfterTls` | crates/oxrdp-core/src/connector.rs:178-184 | Resuming is accepted only while TLS is awaited |
| `Connector.ClientConnector.OnFrame` | crates/oxrdp-core/src/connector.rs:187-286 | The handlers together make the step the run theorems are about; an error leaves every field as it was |

## Left out

- Message bodies and their codecs: a message is a type, a channel and body bytes, and window messages are datatypes; `queue_message`'s body encoding is not modelled.
- TLS, certificates, pinning and token files.
- tokio tasks, sockets, timers, `select!` and logging: only the step logic is kept. An I/O error at an await is treated like a dropped call.
- Capture, the H.264 encoder and input injection: arbitrary oracle answers per window and tick (`WindowStream.Oracle`).
- The outbound queue itself: for window messages only how many it takes in a tick, for frames the oracle's `slot`; a queue found closed by `pump_frames`, which ends the session, is not an outcome of the frame half of a tick.
- The frame budget inside the agent's stream map is a value; the object of the source is `Pacing.FrameBudget`, proved separately against the same step.
- `retain_live` sorts the departed handles by id; the model takes the smallest id each time.
- Sessions.RunSession: after a tick that was cut short, the messages stay legal, the client mirrors what it was told and the frames stay numbered, but the windows' histories are not stated for the half tick; the session is over.
- Agreement on RESIZABLE, HAS_FRAME and TOPMOST after a window is announced: the client reads only the show state from a state message.
- Frame ids and the counters of sent, dropped and presented frames are unbounded, as is the zero counter of `unescape_rbsp`; ids and channels of windows are bounded as in the source, and running out of them ends a session.
- The chroma profiles' extra fields: the parser declines them.
- GeometryIntent.AnchorIsDisplacement: stated short of i32 saturation, where the anchor stops following the host.
- The settling clock counts whole milliseconds.
- Clock.EstimateWithinBound: stated where neither the offset clamp nor the drift multiplication saturates.
- FrameLatency.StagesAddUp: stated where neither agent timestamp saturates when converted.
- The sample windows, gaps, intervals, timeline buckets and report text of the latency monitor.
- The presenter's map of windows with its unknown-window error, presentation timestamps, raw handles and softbuffer: the surface is an array of bytes, four a pixel.
- Connector PDUs are decoded values, and encoders are taken never to fail.
- Cursor and frame events the client model passes on unchanged are one event; scancode tables, configuration, command line and the headless recorder would only add finite facts.
