# Verification of the dlms-profile APDU channels

A Dafny 4.11 model of the two stream channels of dlms-profile, with proofs about
whole runs of them: the HDLC/LLC channel (with and without a data-link session)
and the WRAPPER/TCP channel. `dafny verify dfyconfig.toml` checks everything.

## How the model is built

- `HdlcChannel.dfy` and `WrapperTcpChannel.dfy` hold the channels as classes, with
  the source's fields, loops and early returns. Each method is proved to turn the
  state of the object into what a function on state values says
  (`HdlcChannelSpec.dfy`, `WrapperTcpSpec.dfy`). The theorems are lemmas about
  those functions, and so hold of the classes.
- `Transport.dfy` is the world below a channel: the bytes that have arrived, the
  frames still on their way out, a script that says for every coming read which
  frames reach the peer, which are lost, whether the reply gets through, and how
  many bytes the read takes or how it fails; what each write, open and close
  returns; and the peer. Theorems quantify over all of it, so "however reads are
  cut", "whatever is lost or delayed" are universal statements. When the script is
  used up reads would block, which bounds every run.
- The peer is the one of the repository's own channel test
  (test/profile/test_profile_channels.cpp:160-195): an HDLC session that answers
  each frame its session accepts once and is silent otherwise. It records the
  frames it accepted.
- The libraries below are small concrete models: `StreamDecoding.dfy` (incremental
  decoding, generic in the parser), `WrapperCodec.dfy` (IEC 62056-47 header),
  `LlcCodec.dfy` (the 3-byte header of IEC 62056-46 clause 5), `HdlcCodec.dfy` (a
  self-delimiting frame with an 11-bit length) and `HdlcSession.dfy` (link states,
  V(S), V(R), acknowledgements and window modulo 8, and the reassembler). Their
  default limits are fields of the options and stay arbitrary.
- The state carries a log of events (frames decoded, taken and flushed, frames shown
  to the reassembler, frames the session accepted, writes attempted, APDUs queued,
  returned and dropped). In the class it is a ghost field. `HdlcLink.dfy` and `HdlcBooks.dfy` read it with folds
  that know nothing of the channel's variables.

## Main results

1. **Delivery** (`HdlcDelivery.dfy`). A session send on a drained line, with frames
   and replies lost or delayed in any pattern: the peer accepts a prefix of the
   LPDU's segments, each once and in order, however the send ends; if it returns
   Ok, all of them, the line is drained again and nothing is unacknowledged, so
   sends compose (`SendsAreDelivered`). `HdlcWaiting.dfy` says exactly when a wait
   and a chunk succeed, for every script of losses, delays, failing reads and cut
   replies; `HdlcProgress.dfy` shows that whole sends succeed when the retry count
   covers their losses. Against that silent peer one lost reply is fatal, however often the
   frame is written again. `HdlcHandshake.dfy` says what connecting leaves.
2. **Cut independence**. On a stream without a malformed unit, over runs without
   `Close`, for WRAPPER/TCP and for HDLC without a session: the APDUs returned, then
   those queued, then those in the undecoded bytes, are the APDUs of the stream
   (`WrapperTcpTheorems.dfy`, `HdlcReceive.dfy`). In both HDLC modes, while writes
   succeed, what any run of receives leaves is a fold over the frames it has taken,
   refused segments and supervisory frames included (`HdlcCutting.dfy`).
3. **Reassembly** (`HdlcReceive.dfy`, `HdlcArrival.dfy`). Session receive undoes every
   split of an LPDU into segments under one control field, with one receipt and one
   step of V(R), and so do repeated receives for a list of APDUs, in order. When
   reads keep taking bytes every such receive succeeds, with and without a session.
4. **Link discipline over every run** (`HdlcLink.dfy`): handshake before data,
   consecutive send numbers, window respected.
5. **Conservation over every run** (`HdlcBooks.dfy`, and the trace accounting of
   `WrapperTcpTheorems.dfy`).
6. **Freshness** (`HdlcFreshness.dfy`, `HdlcRestart.dfy`). No run after a `Close`
   depends on what the channel held of frames, fields and APDUs, in both modes and
   on any stream. The session object does cross, with the state and the numbers
   that earlier frames gave it: a closed channel behaves like a new one on every
   stream if and only if its session is disconnected.
7. **Outcomes of each call** (`HdlcOutcomes.dfy`, `WrapperTcpOutcomes.dfy`). What every
   public call writes, shows, keeps and returns, case by case, from the options and
   the bytes alone: frame sizes and addresses, retransmissions, refusals, statuses.
8. **Three promises that do not hold as stated**, each with an input and an exact
   condition: the frame count of a send (`OkMeansDeliveredUnlessOverflow`), the
   reassembly limit (`SendLimitFitsReassembly`), and what a successful wait means
   (`NextFrameDecidesTheWait`).

## Where the code and its documents differ

The model follows the code.

- docs/architecture.md says the send waits for RR when the window requires it; the
  code waits after every chunk, so sending is stop-and-wait whatever the window.
- docs/00_profile_requirements.md says a send completes only after the peer
  acknowledges the emitted frame; the code accepts any frame the session accepts,
  an old receipt or a disconnect included. Delivery holds because the peer answers
  each accepted frame once and the line starts drained.
- The ceiling division at src/profile/hdlc_profile_channel.cpp:487 and the sum at
  line 318 can wrap in the 64-bit size type. In the first case a send returns Ok
  and writes nothing.

## Model

| member | source | states |
|---|---|---|
| HdlcDelivery.SendIsDelivered | src/profile/hdlc_profile_channel.cpp:470-527 | On a drained line, for every LPDU, chunk size, window, retry count and pattern of loss and delay, the peer accepts a prefix of the segments once and in order; if the send returns Ok it accepted all, the line is drained again, nothing is unacknowledged and the peer expects the next number |
| HdlcDelivery.SendsAreDelivered | src/profile/hdlc_profile_channel.cpp:212-241 | If every send of a list returns Ok, the frames the peer accepted read back, by joining segments, as exactly the APDUs behind their LLC headers |
| HdlcOutcomes.SessionSendIsCutToSize | src/profile/hdlc_profile_channel.cpp:482-510 | With m the configured maximum, an Ok send delivers the ceiling of the LPDU's size by m frames, one if m is zero; all but the last carry exactly m bytes and are segmented, the last the rest with poll set; they are addressed from the options, numbered in sequence and together carry the three header bytes and the APDU |
| HdlcOutcomes.SendGuards | src/profile/hdlc_profile_channel.cpp:212-230 | An invalid view, an APDU above the maximum or without room for the header, and a session that is not connected are refused with their own status before anything is written |
| HdlcOutcomes.PlainSendOutcome | src/profile/hdlc_profile_channel.cpp:220-241 | Without a session: invalid addresses and too large a frame are refused with their own status; otherwise one frame, addressed by direction with control byte 0x10, is written once and the call returns what the write did |
| HdlcOutcomes.FullWindowTakesOneFrame | src/profile/hdlc_profile_channel.cpp:491-496 | With the window full one frame is taken first: silence or a refused frame fails the send with nothing written, a receipt lets the frame out |
| HdlcOutcomes.TooLargeAFieldIsRefused | src/profile/hdlc_profile_channel.cpp:351-368 | A field beyond the session's limit or the codec's is refused with PayloadTooLarge and nothing is written |
| HdlcDelivery.ChunksAreDelivered | src/profile/hdlc_profile_channel.cpp:490-524 | The delivery statement for the loop from any chunk on, including sends that stop half way |
| HdlcDelivery.FrameIsDelivered | src/profile/hdlc_profile_channel.cpp:515-522 | Writing one I-frame and waiting delivers it at most once, and exactly once on success |
| HdlcDelivery.WaitAcknowledges | src/profile/hdlc_profile_channel.cpp:404-426 | Under loss, delay and retransmission the wait succeeds only on the answer to this very frame, and then only stale copies are left on the line |
| HdlcDelivery.OkMeansDeliveredUnlessOverflow | src/profile/hdlc_profile_channel.cpp:482-526 | A send that returned Ok delivered the LPDU if and only if size plus chunk size minus one fits the size type |
| HdlcDelivery.OverflowingSendWritesNothing | src/profile/hdlc_profile_channel.cpp:212-241 | A concrete overflow at the public call: with the largest chunk size, SendApdu of an empty APDU returns Ok and nothing is written |
| HdlcDelivery.FrameCountIsExactUnlessItOverflows | src/profile/hdlc_profile_channel.cpp:485-487 | The frame count is the ceiling of the quotient when the sum fits, and zero whenever it does not |
| HdlcDelivery.SegmentCount | src/profile/hdlc_profile_channel.cpp:485-502 | The segments that cover an LPDU are as many as that ceiling |
| HdlcDelivery.SegmentsCoverLpdu | src/profile/hdlc_profile_channel.cpp:498-523 | The chunks concatenate to the LPDU |
| HdlcDelivery.SegmentShape | src/profile/hdlc_profile_channel.cpp:498-510 | Every chunk but the last is full and segmented, the last alone polls, is not segmented and is not empty unless the LPDU is; numbers are consecutive modulo 8 |
| HdlcDelivery.SegmentsReadBack | src/profile/hdlc_profile_channel.cpp:498-523 | Joining segmented fields until an unsegmented one gives the LPDU back, whatever follows |
| HdlcDelivery.ReencodingOnlySetsTheBit | src/profile/hdlc_profile_channel.cpp:351-391 | Within the installed limit, decoding and re-encoding a built I-frame cannot fail and changes the segmentation bit only |
| HdlcDelivery.DrainedLineIsSilent | src/profile/hdlc_profile_channel.cpp:491-496 | On a drained line the extra receive for a full window never succeeds |
| HdlcProgress.SendKeepsInStep | src/profile/hdlc_profile_channel.cpp:470-527 | Whatever is lost or delayed, a send that returns Ok from two ends in step leaves them in step on a drained line with nothing unacknowledged |
| HdlcProgress.LossyWaitSucceeds | src/profile/hdlc_profile_channel.cpp:404-426 | A wait whose first k reads lose the frame or find nothing, and whose next read delivers frame and reply, succeeds after exactly k retransmissions, for every k within the retry count |
| HdlcProgress.LossySendSucceeds | src/profile/hdlc_profile_channel.cpp:470-527 | Two ends in step, chunks that fit both ends, every frame through with its reply after at most so many losses as the retry count covers: the send returns Ok, the ends stay in step and each frame costs at most that many more writes |
| HdlcProgress.PromptSendSucceeds | src/profile/hdlc_profile_channel.cpp:470-527 | On a line that loses and delays nothing the send returns Ok with exactly one write for each chunk |
| HdlcProgress.LostReplyIsFatal | src/profile/hdlc_profile_channel.cpp:404-426 | Once the peer has taken the frame and its reply is lost, the wait fails, whatever the retry count and whatever the line does next |
| HdlcProgress.LostReplyFailsTheSend | src/profile/hdlc_profile_channel.cpp:490-524 | One lost reply to the first segment fails the send although the peer has accepted that segment |
| HdlcWaiting.WaitSucceedsExactly | src/profile/hdlc_profile_channel.cpp:404-426 | While writes and sleeps succeed, for every script of losses, delays, failing and partial reads: a wait succeeds if and only if, within the retry budget, the first copy not lost is delivered with its reply and the reply comes in |
| HdlcWaiting.ChunkSucceedsExactly | src/profile/hdlc_profile_channel.cpp:491-522 | From two ends in step on an idle line, a chunk that fits both is sent and acknowledged if and only if a copy of its frame gets through so |
| HdlcOutcomes.EmptyReadDecides | src/profile/hdlc_profile_channel.cpp:404-426 | One read that brings nothing, with retries left: after would-block, timeout or zero bytes the wait sleeps and writes the same bytes exactly once more, and a failing sleep or write ends it with its own status; any other failing read ends it with its own status and no write |
| HdlcOutcomes.SilentSend | src/profile/hdlc_profile_channel.cpp:404-426 | To a line that stays silent a one-frame send writes its frame once and then as often as the retry count, and returns WouldBlock |
| HdlcProgress.PromptConnectSucceeds | src/profile/hdlc_profile_channel.cpp:129-157 | Connecting over a prompt line to a reachable server returns Ok and leaves both ends in step on a drained line, where delivery starts |
| HdlcHandshake.ConnectUnderLoss | src/profile/hdlc_profile_channel.cpp:129-157 | Whatever requests and answers are lost or delayed, an Ok connect leaves both ends in step; requests in transit and further answers are no more than the retransmissions, and the line is drained exactly if there are none |
| HdlcHandshake.LateAnswerFailsTheSend | src/profile/hdlc_profile_channel.cpp:512-522 | A further answer in the queue makes the first SendApdu end with InvalidFrame and its frame unacknowledged |
| HdlcHandshake.DelayedRequestBreaksTheSend | src/profile/hdlc_profile_channel.cpp:129-157 | A concrete run: the first request is delayed, both copies are answered, ConnectDataLink returns Ok and the next SendApdu InvalidFrame |
| HdlcRetry.WaitStaysInBudget | src/profile/hdlc_profile_channel.cpp:404-426 | A wait rewrites its own bytes k times, k at most the retry count, and receives k or k plus one times |
| HdlcRetry.ChunkStaysInBudget | src/profile/hdlc_profile_channel.cpp:491-522 | One chunk writes copies of one frame only, at most the retry count plus one |
| HdlcRetry.SendStaysInBudget | src/profile/hdlc_profile_channel.cpp:490-524 | A send of k chunks appends at most k times retry count plus one writes |
| HdlcSetup.WaitMeansSomeFrameAccepted | src/profile/hdlc_profile_channel.cpp:404-426 | A successful wait means that the session accepted some frame; a failed one leaves the session alone; neither queues an APDU |
| HdlcSetup.WaitTakesTheNextFrame | src/profile/hdlc_profile_channel.cpp:404-426 | Whatever the reads and the retries, a wait takes at most the next frame of the line and succeeds only if the session accepts that one; a refusal is never retried |
| HdlcSetup.NextFrameDecidesTheWait | src/profile/hdlc_profile_channel.cpp:586-598 | From a connected session, a successful wait leaves the link up with everything acknowledged if and only if the next frame of the line is an I or RR frame whose N(R) is the next send number |
| HdlcSetup.DisconnectEndsTheSend | src/profile/hdlc_profile_channel.cpp:512-522 | A concrete SendApdu that returns Ok with the link disconnected and its frame unacknowledged |
| HdlcSetup.StaleReceiptEndsTheWait | src/profile/hdlc_profile_channel.cpp:586-598 | A concrete wait that succeeds while a frame stays unacknowledged |
| HdlcSetup.ConnectedMeansFresh | src/profile/hdlc_profile_channel.cpp:129-157 | ConnectDataLink returns Ok only with the link connected and all numbers zero |
| HdlcSetup.AcceptedMeansFresh | src/profile/hdlc_profile_channel.cpp:159-187 | AcceptDataLink returns Ok only with the link connected and all numbers zero |
| HdlcSetup.DisconnectedMeansDown | src/profile/hdlc_profile_channel.cpp:189-210 | After DisconnectDataLink returned Ok no session send gets past NotOpen |
| HdlcOutcomes.ConnectOutcome | src/profile/hdlc_profile_channel.cpp:129-157 | Every guard of connecting with its status; past them the call writes the request, addressed from the options, between once and the retry count plus one times and nothing else, exactly the full count to a silent line, and once with its own status if the write fails |
| HdlcOutcomes.AcceptOutcome | src/profile/hdlc_profile_channel.cpp:159-187 | Every guard of accepting with its status; one receive that leaves the session asked is answered by one write of the answer addressed from the options, whose status is the status of the call; otherwise nothing is written |
| HdlcOutcomes.DisconnectOutcome | src/profile/hdlc_profile_channel.cpp:189-210 | Every guard of releasing with its status; past them the disconnect, addressed from the options, is written and rewritten like the request |
| HdlcOutcomes.SessionIsRenewed | src/profile/hdlc_profile_channel.cpp:283-342 | A disconnected session is replaced by one with the role, addresses, limits and both windows of the options, on an empty link layer; any other is kept; invalid addresses are refused first |
| HdlcOutcomes.NewChannelHasItsSession | src/profile/hdlc_profile_channel.cpp:66-108 | A new channel has the session its options describe, or with invalid addresses client 0x10 and server 1, 0 with default limits; its read buffer is 2048 bytes unless configured |
| HdlcOutcomes.OpenAndCloseReachTheStream | src/profile/hdlc_profile_channel.cpp:110-122 | Open and Close reach the stream and return its status; Close throws away all that was received whatever the stream answers |
| HdlcLink.HandshakeBeforeData | src/profile/hdlc_profile_channel.cpp:129-210 | Over every run in session mode, each I-frame written follows both halves of a handshake with no disconnect, new request or new session since; it repeats the latest I-frame or carries the next number inside the window |
| HdlcLink.NumbersAreConsecutive | src/profile/hdlc_profile_channel.cpp:490-524 | Of two I-frames written on one link with none between, the later repeats the earlier or carries the next number modulo 8; the first carries zero |
| HdlcLink.OpenLinkHasHandshake | src/profile/hdlc_profile_channel.cpp:141-186 | Whenever the log shows an open link it contains the handshake that opened it, and nothing has ended it since |
| HdlcLink.RunAgrees | src/profile/hdlc_profile_channel.cpp:110-281 | Every call keeps the session in agreement with an observer of writes and accepted frames that enforces handshake, numbering and window |
| HdlcLink.ChunkAgrees | src/profile/hdlc_profile_channel.cpp:491-522 | One chunk of a send keeps that agreement, also after the single extra receive, a refused frame or a disconnect by the peer |
| HdlcLink.RetryingAgrees | src/profile/hdlc_profile_channel.cpp:404-426 | Retransmission never advances the numbering and never happens on a link that is not open |
| HdlcBooks.NothingIsLostOrRepeated | src/profile/hdlc_profile_channel.cpp:110-281 | Over every run: frames decoded equal those handed over or flushed, then those queued; APDUs queued equal those returned or dropped, then those pending; writes are the log's; no error poisons the decoder; without a session the APDUs queued are exactly those of the frames taken; with one, each follows the acceptance of the frame that carries it, and that frame was just taken or is what the segments taken since the last field or refusal join to |
| HdlcBooks.RunBalances | src/profile/hdlc_profile_channel.cpp:110-281 | The same from any balanced state |
| HdlcBooks.QueueDrainsBeforeTheStream | src/profile/hdlc_profile_channel.cpp:540-584 | At every decode of every run, all frames decoded before it have been handed over or thrown away, whichever of the two consumers asks |
| HdlcBooks.ReassemblerJoins | src/profile/hdlc_profile_channel.cpp:632-642 | Whatever the reassembler makes of a frame, it then holds what joining the segments gathered since the last field or refusal gives, and a completed frame is what they and this one join to |
| HdlcReceive.FramesComeInOrder | src/profile/hdlc_profile_channel.cpp:540-584 | Whatever the reads look like, frames are handed over one at a time in the order of the line, and a receive that fails takes none |
| HdlcReceive.RunConserves | src/profile/hdlc_profile_channel.cpp:243-281 | Without a session, APDUs returned, pending and still on the line are always those of the line, under every cutting, failure and mix of receive forms |
| HdlcOutcomes.PlainReceiveOutcome | src/profile/hdlc_profile_channel.cpp:600-628 | Without a session, by the next frame of a flowing line: segmented gives UnsupportedFeature, a header that is not LLC InvalidFrame, too long an APDU PayloadTooLarge, anything else the APDU, each taking exactly that frame; a field shorter than the header is passed over |
| HdlcOutcomes.SessionReceiveOutcome | src/profile/hdlc_profile_channel.cpp:630-689 | With a session, by the next frame: what the reassembler and the session refuse and with which status, what is taken in silence, and what a whole field gives; a bad header or too long an APDU gives InvalidFrame or PayloadTooLarge without a receipt; a receipt that cannot be written fails the call and keeps the APDU |
| HdlcOutcomes.EmptyReadIsReported | src/profile/hdlc_profile_channel.cpp:548-562 | A read that fails is reported with its own status, one of zero bytes as NeedMoreData, a read buffer of size zero as InvalidArgument; nothing else changes |
| HdlcOutcomes.MalformedInputIsReported | src/profile/hdlc_profile_channel.cpp:564-583 | Bytes that cannot be decoded are reported with the mapped status of the codec, and the decoder starts over |
| HdlcOutcomes.BufferIsChecked | src/profile/hdlc_profile_channel.cpp:266-281 | An invalid output buffer is refused before anything is read; one too small keeps the APDU; one large enough gets it |
| HdlcCutting.ReceivingIsAFold | src/profile/hdlc_profile_channel.cpp:243-281 | In either mode, on any clean line whose writes succeed, after any run of receives of either form: session, reassembler, receipts and the APDUs returned or pending are a fold over the frames taken, whatever those frames are |
| HdlcCutting.CuttingDoesNotMatter | src/profile/hdlc_profile_channel.cpp:540-584 | Two channels with the same frames ahead, cut differently and received in different forms, end the same once both have taken everything, and before that one is what the other becomes |
| HdlcCutting.DecodingDigests | src/profile/hdlc_profile_channel.cpp:622-689 | Decoding one frame does to session, reassembler, APDUs and writes what one step of the fold does |
| HdlcReceive.PlainRoundTrip | src/profile/hdlc_profile_channel.cpp:428-468 | What successful session-less sends wrote is received as exactly those APDUs, in order, under every cutting and mix of receive forms |
| HdlcArrival.PlainRoundTripArrives | src/profile/hdlc_profile_channel.cpp:243-281 | If reads keep taking bytes, every receive of those APDUs returns Ok |
| HdlcReceive.PlainSendWritesOneFrame | src/profile/hdlc_profile_channel.cpp:212-241 | A successful session-less send wrote exactly one frame, addressed by direction, carrying the APDU behind its header, within the limits |
| HdlcReceive.SessionReceiveUndoesSegmentation | src/profile/hdlc_profile_channel.cpp:622-659 | For every APDU within the limits and every split into segments sharing the expected control field, under every cutting: the first receive that succeeds returns it with V(R) advanced once and one receipt; before that nothing is written and the session does not move; once everything has been read one has succeeded |
| HdlcArrival.SegmentedRoundTripArrives | src/profile/hdlc_profile_channel.cpp:600-659 | If reads keep taking bytes, the first receive returns the APDU, over however many segments and reads |
| HdlcReceive.RepeatedReceivesReassemble | src/profile/hdlc_profile_channel.cpp:243-264 | The same from any number of segments already gathered, with other frames behind them; as long as none succeeds the field is underway and part of it unread |
| HdlcArrival.SegmentedApduArrives | src/profile/hdlc_profile_channel.cpp:600-620 | From any number of segments already gathered, one receive on a flowing line returns the APDU, with one receipt and one step of V(R) |
| HdlcArrival.FrameArrives | src/profile/hdlc_profile_channel.cpp:540-584 | On a flowing line that carries a frame, a receive of one frame succeeds and the line goes on flowing |
| HdlcArrival.ReceivesReturnInOrder | src/profile/hdlc_profile_channel.cpp:243-264 | Several APDUs under consecutive send numbers: n receives return the first m in order with one receipt and one step of V(R) each; all of them once everything has been read, and n of them on a flowing line |
| HdlcArrival.FieldsOnTheLineArrive | src/profile/hdlc_profile_channel.cpp:540-584 | Every list of fields in sequence on an unread line is in the state those receives start from |
| HdlcArrival.NothingArrives | src/profile/hdlc_profile_channel.cpp:600-620 | A receive from a line that carries no frame fails, writes nothing and leaves the session alone |
| HdlcReceive.NextApduReassembles | src/profile/hdlc_profile_channel.cpp:600-620 | One receive either completes the field or leaves it under way, with session and writes unchanged |
| HdlcReceive.ReassemblerAbsorbs | src/profile/hdlc_profile_channel.cpp:632-642 | The reassembler gathers the segments in order and gives the whole field at the last one |
| HdlcArrival.RefusalResynchronises | src/profile/hdlc_profile_channel.cpp:634-642 | A receive that meets a frame which does not fit what was gathered fails and leaves the next whole field underway from its first segment, session and writes unchanged; one that fails before leaves everything |
| HdlcArrival.FieldAfterRefusalArrives | src/profile/hdlc_profile_channel.cpp:600-642 | On a flowing line the receive after a refusal returns the next whole field, with one receipt and one step of V(R) |
| HdlcReceive.SendLimitFitsReassembly | src/profile/hdlc_profile_channel.cpp:316-322 | Every APDU the send-side check admits fits the reassembly limit of the same options, if and only if adding the header does not wrap or the default limit covers it |
| HdlcReceive.OverflowingLimitIsTooSmall | src/profile/hdlc_profile_channel.cpp:316-322 | A concrete maximum for which the wrapped limit is too small |
| HdlcReceive.ReturnsAfterClose | src/profile/hdlc_profile_channel.cpp:115-122 | Without a session, what is returned after Close, even a failing one, comes from the bytes read afterwards |
| HdlcFreshness.CloseForgets | src/profile/hdlc_profile_channel.cpp:115-122 | In both modes, on any stream and against any peer: after Close, every run of calls has the same outcomes and reaches the same state as if no partial frame, half-gathered field, queued frame or queued APDU had been held; the session and the installed limit stay |
| HdlcRestart.ClosedIsNewExactlyIfDisconnected | src/profile/hdlc_profile_channel.cpp:115-122 | For every channel a run can reach: no run on any stream tells the closed channel from a new one if and only if its session is disconnected |
| HdlcRestart.ClosedIsNew | src/profile/hdlc_profile_channel.cpp:115-122 | With a disconnected session every run after Close has the outcomes of the same run on a new channel on the same stream |
| HdlcRestart.OpenLinkTells | src/profile/hdlc_profile_channel.cpp:189-210 | With a connected or disconnecting session, one DisconnectDataLink after Close writes a frame that a new channel refuses to write |
| HdlcRestart.DisconnectCrossesClose | src/profile/hdlc_profile_channel.cpp:115-122 | Concrete: a disconnect taken by a receive before Close makes SendApdu after it return NotOpen; without that receive the send attempts its write |
| HdlcRestart.RunBelongs | src/profile/hdlc_profile_channel.cpp:110-281 | Every run keeps what the options fix of a channel: limits, sizes, session options, and which states its role can be in |
| HdlcFreshness.RunsAlike | src/profile/hdlc_profile_channel.cpp:110-281 | In session mode the numbers of a link that is not connected, and the installed limit, never show in any run |
| HdlcFreshness.RenewalForgets | src/profile/hdlc_profile_channel.cpp:327-342 | Only a disconnected session is renewed; after that, every run has the outcomes it would have had whatever decoder, reassembler, limit and frame queue were there before, and the APDUs already queued are kept |
| HdlcFreshness.RunIgnoresLog | src/profile/hdlc_profile_channel.cpp:110-281 | No call of any run depends on the event log, which the source does not have |
| HdlcReceive.ReceiveFormsAgree | src/profile/hdlc_profile_channel.cpp:243-281 | With room both receive forms do the same; without, the APDU stays at the head of the queue and nothing else differs |
| HdlcChannelSpec.ReceiveDecodedFrame | src/profile/hdlc_profile_channel.cpp:540-584 | Every successful receive of a frame lowers (remaining reads, queued frames) lexicographically, although one read may enlarge the queue |
| HdlcChannel.HdlcProfileChannel.constructor | src/profile/hdlc_profile_channel.cpp:88-108 | Builds the initial state, with default session options when the configured addresses are invalid |
| HdlcChannel.HdlcProfileChannel.Open | src/profile/hdlc_profile_channel.cpp:110-113 | Opens the stream only; no handshake, no other state |
| HdlcChannel.HdlcProfileChannel.Close | src/profile/hdlc_profile_channel.cpp:115-122 | The whole new state; the session is kept |
| HdlcChannel.HdlcProfileChannel.EnsureSession | src/profile/hdlc_profile_channel.cpp:327-342 | Replaces a disconnected session and clears the link layer, otherwise changes nothing |
| HdlcChannel.HdlcProfileChannel.ConnectDataLink | src/profile/hdlc_profile_channel.cpp:129-157 | Guards, session renewal, request and wait: the resulting state and status |
| HdlcChannel.HdlcProfileChannel.AcceptDataLink | src/profile/hdlc_profile_channel.cpp:159-187 | Guards, session renewal, one receive and the response |
| HdlcChannel.HdlcProfileChannel.DisconnectDataLink | src/profile/hdlc_profile_channel.cpp:189-210 | Guards, request and wait, without renewing the session |
| HdlcChannel.HdlcProfileChannel.SendApdu | src/profile/hdlc_profile_channel.cpp:212-241 | View and size checks, LLC header, then the session send or one frame |
| HdlcChannel.HdlcProfileChannel.WriteFrameBytes | src/profile/hdlc_profile_channel.cpp:344-349 | One write attempt and its mapped status |
| HdlcChannel.HdlcProfileChannel.BuildSessionInformationFrame | src/profile/hdlc_profile_channel.cpp:351-391 | Builds through the session and sets the segmentation bit by decoding and encoding again |
| HdlcChannel.HdlcProfileChannel.SleepBeforeRetry | src/profile/hdlc_profile_channel.cpp:393-402 | No sleep for a zero delay, otherwise one sleep of exactly the configured length, and the timer's status |
| HdlcChannel.HdlcProfileChannel.ReceiveSessionControlFrameWithRetry | src/profile/hdlc_profile_channel.cpp:404-426 | The retry loop with its 8-bit counter, which terminates and never wraps |
| HdlcChannel.HdlcProfileChannel.BuildFrame | src/profile/hdlc_profile_channel.cpp:428-468 | The session-less frame, addressed by direction |
| HdlcChannel.HdlcProfileChannel.SendChunk | src/profile/hdlc_profile_channel.cpp:491-522 | The body of the send loop |
| HdlcChannel.HdlcProfileChannel.SendSessionInformation | src/profile/hdlc_profile_channel.cpp:470-527 | The send loop with its wrapping frame count |
| HdlcChannel.HdlcProfileChannel.SendSessionReceiveReady | src/profile/hdlc_profile_channel.cpp:529-538 | Builds and writes RR |
| HdlcChannel.HdlcProfileChannel.ReceiveDecodedFrame | src/profile/hdlc_profile_channel.cpp:540-584 | Takes the oldest queued frame or reads until a push decodes something, resetting the decoder on errors; the loop terminates |
| HdlcChannel.HdlcProfileChannel.ReceiveSessionControlFrame | src/profile/hdlc_profile_channel.cpp:586-598 | One frame, shown to the session |
| HdlcChannel.HdlcProfileChannel.ReceiveNextApdu | src/profile/hdlc_profile_channel.cpp:600-620 | Takes frames until an APDU is queued or something fails, passing over those that need more data; the loop terminates |
| HdlcChannel.HdlcProfileChannel.DecodeFrameToPendingApdu | src/profile/hdlc_profile_channel.cpp:622-659 | Reassembly, session, LLC, queue and RR, with every early return |
| HdlcChannel.HdlcProfileChannel.DecodeCompleteInformationToPendingApdu | src/profile/hdlc_profile_channel.cpp:661-689 | LLC header and size check, then the queue |
| HdlcChannel.HdlcProfileChannel.ReceiveApdu | src/profile/hdlc_profile_channel.cpp:243-264 | The vector form |
| HdlcChannel.HdlcProfileChannel.ReceiveApduInto | src/profile/hdlc_profile_channel.cpp:266-281 | The caller-buffer form: status, state, written size and the caller's array, which holds the APDU and is otherwise as it was, wholly so on failure |
| HdlcChannel.HdlcProfileChannel.CopyFirstPendingApdu | src/profile/hdlc_profile_channel.cpp:691-710 | Copies and consumes the head, leaving the bytes beyond it, or reports too little room and keeps both the head and the caller's bytes |
| WrapperTcpTheorems.StreamIsReceivedExactly | src/profile/wrapper_tcp_profile_channel.cpp:128-255 | For every list of admissible frames and every cutting of their encodings, any mix of receive forms returns exactly their data in order |
| WrapperTcpTheorems.RunConserves | src/profile/wrapper_tcp_profile_channel.cpp:128-255 | APDUs returned, queued and still in the bytes are always those of the stream, for any stream without a malformed unit |
| WrapperTcpTheorems.CuttingDoesNotMatter | src/profile/wrapper_tcp_profile_channel.cpp:169-234 | Two channels reading the same bytes cut differently return the same |
| WrapperTcpTheorems.TcpRoundTrip | src/profile/wrapper_tcp_profile_channel.cpp:91-126 | What successful sends wrote is received as exactly those APDUs, in order, under every cutting |
| WrapperTcpOutcomes.SendOutcome | src/profile/wrapper_tcp_profile_channel.cpp:91-126 | Byte by byte: data within both limits is written once as version, local port, remote port, length and data, the sink is shown the same unit with these ports and sizes, and the call returns what the write did; anything else is refused with its status and nothing is written or shown |
| WrapperTcpOutcomes.DecodedEventsMatchTheBytes | src/profile/wrapper_tcp_profile_channel.cpp:198-212 | On a stream of data units, over any run without Close and under every cutting, the decoded events are, in order and once each, the ports, sizes and data of the units received |
| WrapperTcpOutcomes.EmptyReadIsReported | src/profile/wrapper_tcp_profile_channel.cpp:169-192 | A read that fails is reported with its own status and shown to the sink, one of zero bytes is NeedMoreData and not shown, a read buffer of size zero is InvalidArgument |
| WrapperTcpOutcomes.MalformedInputIsReported | src/profile/wrapper_tcp_profile_channel.cpp:194-232 | Bytes that cannot be decoded are reported with the mapped status of the codec, shown to the sink with the bytes of that read, and the decoder starts over |
| WrapperTcpOutcomes.BufferIsChecked | src/profile/wrapper_tcp_profile_channel.cpp:151-167 | An invalid output buffer is refused before anything is read; one too small keeps the APDU; one large enough gets it |
| WrapperTcpOutcomes.OpenAndCloseReachTheStream | src/profile/wrapper_tcp_profile_channel.cpp:74-84 | Open and Close reach the stream and return its status; Close throws away all that was received whatever the stream answers |
| WrapperTcpOutcomes.NewChannelIsEmpty | src/profile/wrapper_tcp_profile_channel.cpp:63-72 | A new channel holds nothing and reads at most 2048 bytes at once unless configured |
| Statuses.StatusesComeFrom | src/profile/profile_types.cpp:44-182 | For every status a caller can see, exactly which statuses of the stream and the codecs it stands for |
| WrapperTcpTheorems.ReceiveFindsTheNext | src/profile/wrapper_tcp_profile_channel.cpp:128-149 | While reads keep delivering, a receive returns the next APDU of the stream |
| WrapperTcpTheorems.CloseForgets | src/profile/wrapper_tcp_profile_channel.cpp:79-84 | After Close, even a failing one, every run on any stream is the one that would have followed without the partial frame and the queue; on a stream of frames it returns only those |
| WrapperTcpTheorems.DecoderStaysDry | src/profile/wrapper_tcp_profile_channel.cpp:222-232 | Over any run on any stream, no error leaves the decoder holding what failed |
| WrapperTcpTheorems.TraceDoesNotInterfere | src/profile/wrapper_tcp_profile_channel.cpp:34-41 | A trace sink changes no status, APDU, write or state of any run |
| WrapperTcpTheorems.TraceAccountsForEverything | src/profile/wrapper_tcp_profile_channel.cpp:106-233 | Decoded events are, in order, the APDUs that left the queue and those still in it; encoded events are the attempted writes, one to one |
| WrapperTcpTheorems.ReceiveFormsAgree | src/profile/wrapper_tcp_profile_channel.cpp:128-167 | With room both receive forms do the same; without, the APDU stays at the head of the queue |
| WrapperTcpTheorems.LimitsAreTheStricter | src/profile/wrapper_tcp_profile_channel.cpp:12-24 | The channel's limits admit exactly what the library's limits and the configured maximum both admit |
| WrapperTcpChannel.WrapperTcpProfileChannel.constructor | src/profile/wrapper_tcp_profile_channel.cpp:63-72 | Builds the initial state |
| WrapperTcpChannel.WrapperTcpProfileChannel.Open | src/profile/wrapper_tcp_profile_channel.cpp:74-77 | Opens the stream only |
| WrapperTcpChannel.WrapperTcpProfileChannel.Close | src/profile/wrapper_tcp_profile_channel.cpp:79-84 | The whole new state and the stream's status |
| WrapperTcpChannel.WrapperTcpProfileChannel.SendApdu | src/profile/wrapper_tcp_profile_channel.cpp:91-126 | Checks, encoding, the event and the write |
| WrapperTcpChannel.WrapperTcpProfileChannel.ReceiveNextFrame | src/profile/wrapper_tcp_profile_channel.cpp:169-234 | The read loop with its events, queueing and decoder reset; it terminates |
| WrapperTcpChannel.WrapperTcpProfileChannel.EmitDecoded | src/profile/wrapper_tcp_profile_channel.cpp:199-212 | One event per decoded frame, in order |
| WrapperTcpChannel.WrapperTcpProfileChannel.ReceiveApdu | src/profile/wrapper_tcp_profile_channel.cpp:128-149 | The vector form |
| WrapperTcpChannel.WrapperTcpProfileChannel.ReceiveApduInto | src/profile/wrapper_tcp_profile_channel.cpp:151-167 | The caller-buffer form: status, state, written size and the caller's array, which holds the APDU and is otherwise as it was, wholly so on failure |
| WrapperTcpChannel.WrapperTcpProfileChannel.CopyFirstPendingFrame | src/profile/wrapper_tcp_profile_channel.cpp:236-255 | Copies and consumes the head, leaving the bytes beyond it, or reports too little room and keeps both the head and the caller's bytes |

## Left out

- HdlcProfileChannel to HdlcProfileChannel transfer of more than one segment: the sender numbers and awaits every segment while the receiver passes only the completed field to its session and answers once, so no such transfer is claimed; the sender is proved against the answering peer and the receiver against segments under one control field.
- The protocol libraries themselves: frames have no checksums, addresses are two 16-bit fields, SNRM and UA carry no parameters and the negotiated limits are the configured ones, only the control fields the channel needs exist, a window of 0 means 1 and one above 7 means 7, the reassembler requires one control field per information field, and a decoder that meets a malformed unit drops the frames decoded in the same push.
- HdlcLink.HandshakeBeforeData: speaks of attempted writes, because a refused write still advances the session.
- HdlcDelivery.SendIsDelivered: starts from a drained line, because a stray frame the session accepts would end a wait early (see HdlcSetup.NextFrameDecidesTheWait); after a failed send the line need not be drained.
- HdlcReceive.SessionReceiveUndoesSegmentation: assumes that writes succeed; a failed RR write returns its status and keeps the APDU queued, which HdlcBooks.NothingIsLostOrRepeated covers.
- WrapperTcpTheorems.StreamIsReceivedExactly: assumes that no Close happens in the run; WrapperTcpTheorems.CloseForgets restarts it after one.
- WrapperTcpTheorems.TraceDoesNotInterfere: a sink that throws is not modelled; while frames are shown to it the source then resets the decoder and clears the queue (src/profile/wrapper_tcp_profile_channel.cpp:198-218).
- HdlcArrival.PlainRoundTripArrives: and the other results on flowing lines assume no noise between frames, because a push that skips noise and decodes nothing ends the receive with NeedMoreData.
- Allocation failures and null pointers beyond the byte-view and buffer checks; a null timer, which neither constructor installs.
- The UDP channel, which is stateless, and the C interface, which only converts and forwards.
- Real transports and time: sleeping is a status, and reads after the script would block.
