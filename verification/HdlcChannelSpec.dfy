/** What one call on an HDLC channel does, as functions on its state. */
module HdlcChannelSpec {
  import opened Basics
  import opened Statuses
  import opened HdlcCodec
  import opened HdlcSession
  import opened ProfileTypes
  import opened Transport
  import LlcCodec

  /** What happened on a channel, in order. */
  datatype Event =
    | Decoded(frames: seq<Frame>)     // a push decoded these frames
    | Taken(frame: Frame)             // a frame was handed to a consumer
    | Flushed(frames: seq<Frame>)     // queued frames were thrown away
    | Polled                          // a control frame was awaited once
    | Assembled(frame: Frame, status: HdlcStatus)  // a frame was shown to the reassembler
    | Accepted(frame: Frame)          // the session accepted a frame
    | Renewed                         // a new session object was installed
    | Sent(frameBytes: bytes)         // a write was attempted
    | Queued(apdu: bytes)             // an APDU entered the queue
    | Returned(apdu: bytes)           // an APDU was returned to the caller
    | Dropped(apdus: seq<bytes>)      // queued APDUs were thrown away

  datatype Chan = Chan(
    limits: CodecLimits,
    decoder: HdlcDecoder,
    reassembler: Reassembler,
    session: Session,
    pendingFrames: seq<Frame>,
    pendingApdus: seq<bytes>,
    capacity: nat,
    wire: Wire,
    sleeps: seq<TransportStatus>,
    log: seq<Event>)

  datatype Reply = Reply(status: ProfileStatus, chan: Chan)

  datatype FrameReply = FrameReply(status: ProfileStatus, frame: Option<Frame>, chan: Chan)

  datatype BytesReply = BytesReply(status: ProfileStatus, frameBytes: bytes, chan: Chan)

  datatype ApduReply = ApduReply(status: ProfileStatus, apdu: bytes, chan: Chan)

  function Note(c: Chan, e: Event): Chan {
    c.(log := c.log + [e])
  }

  // ---------------------------------------------------------------------
  // Set-up
  // ---------------------------------------------------------------------

  /** The reassembly limit is computed in the 64-bit size type. */
  function ReassemblyLimit(o: ChannelOptions): nat {
    if o.maximumApduSize == 0 then o.defaultHdlcLimits.maximumReassembledInformationSize
    else (o.maximumApduSize + LlcCodec.HEADER_SIZE) % SIZE_MODULUS
  }

  function SessionLimits(o: ChannelOptions): CodecLimits {
    if o.defaultHdlcLimits.maximumReassembledInformationSize < ReassemblyLimit(o)
    then o.defaultHdlcLimits.(maximumReassembledInformationSize := ReassemblyLimit(o))
    else o.defaultHdlcLimits
  }

  function MakeHdlcSessionOptions(o: ChannelOptions): HdlcResult<SessionOptions> {
    match MakeClientAddress(o.hdlcClientAddress)
    case Failure(s) => Failure(s)
    case Success(client) =>
      match MakeServerAddress(o.hdlcLogicalDeviceAddress, o.hdlcPhysicalDeviceAddress)
      case Failure(s) => Failure(s)
      case Success(server) =>
        Success(SessionOptions(o.hdlcRole, client, server, SessionLimits(o),
          NegotiationLimits(o.hdlcMaxInformationFieldLengthTransmit, o.hdlcMaxInformationFieldLengthReceive,
                            o.hdlcWindowSizeTransmit, o.hdlcWindowSizeReceive)))
  }

  function DefaultSessionOptions(o: ChannelOptions): SessionOptions {
    SessionOptions(Client, Address(0x10, 0), Address(1, 0), o.defaultHdlcLimits, o.defaultNegotiation)
  }

  function NewReassembler(limits: CodecLimits): Reassembler {
    Reassembler(limits.maximumReassembledInformationSize, None)
  }

  function Initial(o: ChannelOptions, wire: Wire, sleeps: seq<TransportStatus>): Chan {
    var options :=
      match MakeHdlcSessionOptions(o)
      case Success(made) => made
      case Failure(_) => DefaultSessionOptions(o);
    Chan(options.limits, HdlcDecoder(options.limits, []), NewReassembler(options.limits), NewSession(options),
         [], [], ScratchSize(o), wire, sleeps, [])
  }

  function EnsureSession(o: ChannelOptions, c: Chan): Reply {
    match MakeHdlcSessionOptions(o)
    case Failure(s) => Reply(MapHdlcStatus(s), c)
    case Success(options) =>
      if c.session.state != Disconnected then Reply(Ok, c)
      else
        Reply(Ok, c.(session := NewSession(options), limits := options.limits,
                     decoder := HdlcDecoder(options.limits, []), reassembler := NewReassembler(options.limits),
                     pendingFrames := [], log := c.log + [Flushed(c.pendingFrames), Renewed]))
  }

  // ---------------------------------------------------------------------
  // Writing, and receiving one frame
  // ---------------------------------------------------------------------

  function WriteFrameBytes(c: Chan, frameBytes: bytes): Reply {
    var written := c.wire.WriteAll(frameBytes);
    Reply(MapTransportStatus(written.status), Note(c, Sent(frameBytes)).(wire := written.wire))
  }

  /** Reads until a push decodes something, or a read or a push fails. */
  function Pull(c: Chan): (r: FrameReply)
    ensures |r.chan.wire.script| <= |c.wire.script|
    ensures r.status == Ok ==> |r.chan.wire.script| < |c.wire.script| && r.frame.Some?
    decreases |c.wire.script|
  {
    var read := c.wire.ReadSome(c.capacity);
    var c1 := c.(wire := read.wire);
    var readStatus := MapTransportStatus(read.status);
    if readStatus != Ok then FrameReply(readStatus, None, c1)
    else if read.data == [] then FrameReply(NeedMoreData, None, c1)
    else
      var pushed := c.decoder.Feed(read.data);
      var c2 := c1.(decoder := c.decoder.(buffer := pushed.buffer));
      var decodeStatus := MapHdlcStatus(VerdictStatus(pushed.verdict));
      if decodeStatus == Ok then
        if pushed.frames == [] then FrameReply(NeedMoreData, None, c2)
        else
          FrameReply(Ok, Some(pushed.frames[0]),
                     c2.(pendingFrames := c.pendingFrames + pushed.frames[1..],
                         log := c.log + [Decoded(pushed.frames), Taken(pushed.frames[0])]))
      else if decodeStatus != NeedMoreData then FrameReply(decodeStatus, None, c2.(decoder := c.decoder.Reset()))
      else Pull(c2)
  }

  function ReceiveDecodedFrame(c: Chan): (r: FrameReply)
    ensures |r.chan.wire.script| <= |c.wire.script|
    ensures r.status == Ok ==> r.frame.Some?
    ensures r.status == Ok ==>
              || |r.chan.wire.script| < |c.wire.script|
              || |r.chan.pendingFrames| < |c.pendingFrames|
  {
    if c.pendingFrames != [] then
      FrameReply(Ok, Some(c.pendingFrames[0]),
                 Note(c.(pendingFrames := c.pendingFrames[1..]), Taken(c.pendingFrames[0])))
    else if c.capacity == 0 then FrameReply(InvalidArgument, None, c)
    else Pull(c)
  }

  /** Shows a frame to the session. */
  function Hear(c: Chan, f: Frame): Reply {
    var heard := c.session.ReceiveFrame(f);
    Reply(MapHdlcStatus(heard.status),
          if heard.status == HdlcOk then Note(c, Accepted(f)).(session := heard.session)
          else c.(session := heard.session))
  }

  function ReceiveSessionControlFrame(c: Chan): Reply {
    var r := ReceiveDecodedFrame(Note(c, Polled));
    if r.status != Ok then Reply(r.status, r.chan) else Hear(r.chan, r.frame.value)
  }

  function SleepBeforeRetry(o: ChannelOptions, c: Chan): Reply {
    if o.hdlcRetryDelayMilliseconds == 0 then Reply(Ok, c)
    else Reply(MapTransportStatus(SleepStatus(c.sleeps)), c.(sleeps := SleepRest(c.sleeps)))
  }

  /** Waits for a control frame, writing the same bytes again after each
      retriable failure until the retry count is used up. */
  function AwaitControlFrame(o: ChannelOptions, c: Chan, frameBytes: bytes, attempt: nat): Reply
    requires attempt <= o.hdlcRetryCount
    decreases o.hdlcRetryCount - attempt
  {
    var r := ReceiveSessionControlFrame(c);
    if r.status == Ok || !IsRetriable(r.status) || attempt >= o.hdlcRetryCount then r
    else
      var slept := SleepBeforeRetry(o, r.chan);
      if slept.status != Ok then slept
      else
        var written := WriteFrameBytes(slept.chan, frameBytes);
        if written.status != Ok then written
        else AwaitControlFrame(o, written.chan, frameBytes, attempt + 1)
  }

  function WriteAndAwait(o: ChannelOptions, c: Chan, frameBytes: bytes): Reply {
    var written := WriteFrameBytes(c, frameBytes);
    if written.status != Ok then written else AwaitControlFrame(o, written.chan, frameBytes, 0)
  }

  // ---------------------------------------------------------------------
  // Link set-up and release
  // ---------------------------------------------------------------------

  function Open(c: Chan): Reply {
    Reply(MapTransportStatus(c.wire.openResult), c.(wire := c.wire.Open()))
  }

  function Close(c: Chan): Reply {
    Reply(MapTransportStatus(c.wire.closeResult),
          c.(decoder := c.decoder.Reset(), reassembler := c.reassembler.Reset(),
             pendingFrames := [], pendingApdus := [], wire := c.wire.Close(),
             log := c.log + [Flushed(c.pendingFrames), Dropped(c.pendingApdus)]))
  }

  function ConnectDataLink(o: ChannelOptions, c: Chan): Reply {
    if !o.hdlcUseSession then Reply(UnsupportedFeature, c)
    else if !c.wire.open then Reply(NotOpen, c)
    else if o.hdlcRole != Client then Reply(UnsupportedFeature, c)
    else
      var ready := EnsureSession(o, c);
      if ready.status != Ok then ready
      else
        var built := ready.chan.session.BuildConnectRequest();
        var c1 := ready.chan.(session := built.session);
        if built.status != HdlcOk then Reply(MapHdlcStatus(built.status), c1)
        else WriteAndAwait(o, c1, built.frameBytes)
  }

  function AcceptDataLink(o: ChannelOptions, c: Chan): Reply {
    if !o.hdlcUseSession then Reply(UnsupportedFeature, c)
    else if !c.wire.open then Reply(NotOpen, c)
    else if o.hdlcRole != Server then Reply(UnsupportedFeature, c)
    else
      var ready := EnsureSession(o, c);
      if ready.status != Ok then ready
      else
        var heard := ReceiveSessionControlFrame(ready.chan);
        if heard.status != Ok then heard
        else
          var built := heard.chan.session.BuildConnectResponse();
          var c1 := heard.chan.(session := built.session);
          if built.status != HdlcOk then Reply(MapHdlcStatus(built.status), c1)
          else WriteFrameBytes(c1, built.frameBytes)
  }

  function DisconnectDataLink(o: ChannelOptions, c: Chan): Reply {
    if !o.hdlcUseSession then Reply(UnsupportedFeature, c)
    else if !c.wire.open then Reply(NotOpen, c)
    else
      var built := c.session.BuildDisconnectRequest();
      var c1 := c.(session := built.session);
      if built.status != HdlcOk then Reply(MapHdlcStatus(built.status), c1)
      else WriteAndAwait(o, c1, built.frameBytes)
  }

  // ---------------------------------------------------------------------
  // Sending
  // ---------------------------------------------------------------------

  /** Builds an I-frame; a segment is decoded and encoded again with the
      segmentation bit set. */
  function BuildSessionInformationFrame(c: Chan, information: bytes, segmented: bool, pollFinal: bool): BytesReply {
    var built := c.session.BuildInformationFrame(information, pollFinal);
    var c1 := c.(session := built.session);
    if built.status != HdlcOk then BytesReply(MapHdlcStatus(built.status), [], c1)
    else if !segmented then BytesReply(Ok, built.frameBytes, c1)
    else
      match DecodeFrame(c.limits, built.frameBytes)
      case Failure(s) => BytesReply(MapHdlcStatus(s), built.frameBytes, c1)
      case Success(f) =>
        match EncodeFrame(c.limits, f.(segmented := true))
        case Failure(s) => BytesReply(MapHdlcStatus(s), [], c1)
        case Success(b) => BytesReply(Ok, b, c1)
  }

  function ChunkSize(c: Chan, lpdu: bytes): nat {
    if c.session.options.negotiation.maxInformationTransmit == 0 then |lpdu|
    else c.session.options.negotiation.maxInformationTransmit
  }

  /** Ceiling division as the source writes it, in the 64-bit size type. */
  function FrameCount(size: nat, chunkSize: nat): nat
    requires size > 0 ==> chunkSize > 0
  {
    if size == 0 then 1 else ((size + chunkSize - 1) % SIZE_MODULUS) / chunkSize
  }

  function CurrentSize(lpdu: bytes, chunkSize: nat, offset: nat): nat
    requires offset <= |lpdu|
  {
    if lpdu == [] then 0 else Min(chunkSize, |lpdu| - offset)
  }

  /** Sends one chunk and waits for its acknowledgement. A full window allows
      one extra receive first. */
  function SendChunk(o: ChannelOptions, c: Chan, information: bytes, final: bool): Reply {
    var ready := if c.session.CanSendInformationFrame() then Reply(Ok, c) else ReceiveSessionControlFrame(c);
    if ready.status != Ok then ready
    else
      var built := BuildSessionInformationFrame(ready.chan, information, !final, final);
      if built.status != Ok then Reply(built.status, built.chan)
      else WriteAndAwait(o, built.chan, built.frameBytes)
  }

  /** Sends chunk `i` of `count` and the ones after it. */
  function SendChunks(o: ChannelOptions, c: Chan, lpdu: bytes, chunkSize: nat, count: nat, i: nat, offset: nat): Reply
    requires i <= count && offset <= |lpdu|
    decreases count - i
  {
    if i == count then Reply(Ok, c)
    else
      var size := CurrentSize(lpdu, chunkSize, offset);
      var r := SendChunk(o, c, lpdu[offset..offset + size], i + 1 == count);
      if r.status != Ok then r else SendChunks(o, r.chan, lpdu, chunkSize, count, i + 1, offset + size)
  }

  /** One iteration of the send loop. */
  lemma SendChunksUnfolds(o: ChannelOptions, c: Chan, lpdu: bytes, chunkSize: nat, count: nat, i: nat, offset: nat)
    requires i < count && offset <= |lpdu|
    ensures var size := CurrentSize(lpdu, chunkSize, offset);
            var r := SendChunk(o, c, lpdu[offset..offset + size], i + 1 == count);
            SendChunks(o, c, lpdu, chunkSize, count, i, offset) ==
            if r.status != Ok then r else SendChunks(o, r.chan, lpdu, chunkSize, count, i + 1, offset + size)
  {}

  lemma NoChunkLeft(o: ChannelOptions, c: Chan, lpdu: bytes, chunkSize: nat, count: nat, offset: nat)
    requires offset <= |lpdu|
    ensures SendChunks(o, c, lpdu, chunkSize, count, count, offset) == Reply(Ok, c)
  {}

  function InstallLimit(c: Chan): Chan {
    c.(limits := c.limits.(maximumInformationFieldSize := c.session.options.negotiation.maxInformationTransmit))
  }

  function SendSessionInformation(o: ChannelOptions, c: Chan, lpdu: bytes): Reply {
    if c.session.state != Connected then Reply(NotOpen, c)
    else
      var chunkSize := ChunkSize(c, lpdu);
      SendChunks(o, InstallLimit(c), lpdu, chunkSize, FrameCount(|lpdu|, chunkSize), 0, 0)
  }

  /** Without a session an LPDU goes out as one I-frame with this control field. */
  const PLAIN_CONTROL: byte := 0x10

  function BuildFrame(o: ChannelOptions, c: Chan, lpdu: bytes): BytesReply {
    match MakeClientAddress(o.hdlcClientAddress)
    case Failure(s) => BytesReply(MapHdlcStatus(s), [], c)
    case Success(client) =>
      match MakeServerAddress(o.hdlcLogicalDeviceAddress, o.hdlcPhysicalDeviceAddress)
      case Failure(s) => BytesReply(MapHdlcStatus(s), [], c)
      case Success(server) =>
        var toClient := o.hdlcDirection == LlcCodec.ServerToClient;
        match DecodeControl(PLAIN_CONTROL)
        case None => BytesReply(MapHdlcStatus(HdlcInvalidControlField), [], c)
        case Some(control) =>
          var f := Frame(false, if toClient then client else server, if toClient then server else client,
                         control, lpdu);
          match EncodeFrame(c.limits, f)
          case Failure(s) => BytesReply(MapHdlcStatus(s), [], c)
          case Success(b) => BytesReply(Ok, b, c)
  }

  function SendApdu(o: ChannelOptions, c: Chan, apdu: ByteView): Reply {
    if !apdu.IsValid() then Reply(InvalidArgument, c)
    else if !WithinMaximum(o, |apdu.Bytes()|) then Reply(PayloadTooLarge, c)
    else
      match LlcCodec.EncodeLpdu(o.hdlcDirection, apdu.Bytes())
      case Failure(s) => Reply(MapLlcStatus(s), c)
      case Success(lpdu) =>
        if o.hdlcUseSession then SendSessionInformation(o, c, lpdu)
        else
          var built := BuildFrame(o, c, lpdu);
          if built.status != Ok then Reply(built.status, c) else WriteFrameBytes(c, built.frameBytes)
  }

  // ---------------------------------------------------------------------
  // Receiving
  // ---------------------------------------------------------------------

  function SendSessionReceiveReady(c: Chan, pollFinal: bool): Reply {
    var built := c.session.BuildReceiveReadyFrame(pollFinal);
    var c1 := c.(session := built.session);
    if built.status != HdlcOk then Reply(MapHdlcStatus(built.status), c1) else WriteFrameBytes(c1, built.frameBytes)
  }

  function DecodeCompleteInformation(o: ChannelOptions, c: Chan, f: Frame): Reply {
    match LlcCodec.DecodeLpdu(f.information)
    case Failure(s) => Reply(MapLlcStatus(s), c)
    case Success(lsdu) =>
      if !WithinMaximum(o, |lsdu|) then Reply(PayloadTooLarge, c)
      else Reply(Ok, Note(c, Queued(lsdu)).(pendingApdus := c.pendingApdus + [lsdu]))
  }

  function DecodeFrameToPendingApdu(o: ChannelOptions, c: Chan, f: Frame): (r: Reply)
    ensures r.chan.wire.script == c.wire.script && r.chan.pendingFrames == c.pendingFrames
  {
    if !o.hdlcUseSession then
      if f.segmented then Reply(UnsupportedFeature, c) else DecodeCompleteInformation(o, c, f)
    else
      var joined := c.reassembler.PushFrame(f);
      var status := MapHdlcStatus(joined.status);
      var d := Note(c, Assembled(f, joined.status)).(reassembler := joined.reassembler);
      if status == NeedMoreData then Reply(NeedMoreData, d)
      else if status != Ok then Reply(status, d.(reassembler := joined.reassembler.Reset()))
      else
        var heard := Hear(d, joined.completed);
        if heard.status != Ok then heard
        else if !joined.hasCompleted || joined.completed.information == [] then heard
        else
          var decoded := DecodeCompleteInformation(o, heard.chan, joined.completed);
          if decoded.status != Ok then decoded else SendSessionReceiveReady(decoded.chan, true)
  }

  /** Takes frames until an APDU is queued or something fails; a frame that
      needs more data is passed over. */
  function ReceiveNextApdu(o: ChannelOptions, c: Chan): (r: Reply)
    ensures r.status == Ok ==> r.chan.pendingApdus != []
    decreases |c.wire.script|, |c.pendingFrames|
  {
    var received := ReceiveDecodedFrame(c);
    if received.status != Ok then Reply(received.status, received.chan)
    else
      var r := DecodeFrameToPendingApdu(o, received.chan, received.frame.value);
      if r.status == NeedMoreData then ReceiveNextApdu(o, r.chan)
      else if r.status != Ok then r
      else if r.chan.pendingApdus != [] then r
      else ReceiveNextApdu(o, r.chan)
  }

  function Await(o: ChannelOptions, c: Chan): (r: Reply)
    ensures r.status == Ok ==> r.chan.pendingApdus != []
  {
    if c.pendingApdus != [] then Reply(Ok, c) else ReceiveNextApdu(o, c)
  }

  function TakeApdu(c: Chan): Chan
    requires c.pendingApdus != []
  {
    Note(c, Returned(c.pendingApdus[0])).(pendingApdus := c.pendingApdus[1..])
  }

  /** The form that returns the APDU as a vector. */
  function ReceiveApdu(o: ChannelOptions, c: Chan): ApduReply {
    var r := Await(o, c);
    if r.status != Ok then ApduReply(r.status, [], r.chan)
    else ApduReply(Ok, r.chan.pendingApdus[0], TakeApdu(r.chan))
  }

  /** The form that copies the APDU into a caller's buffer of `size` bytes. */
  function ReceiveApduInto(o: ChannelOptions, c: Chan, valid: bool, size: nat): ApduReply {
    if !valid then ApduReply(InvalidArgument, [], c)
    else
      var r := Await(o, c);
      if r.status != Ok then ApduReply(r.status, [], r.chan)
      else if size < |r.chan.pendingApdus[0]| then ApduReply(OutputBufferTooSmall, [], r.chan)
      else ApduReply(Ok, r.chan.pendingApdus[0], TakeApdu(r.chan))
  }

  // ---------------------------------------------------------------------
  // Whole runs
  // ---------------------------------------------------------------------

  datatype Call =
    | CallOpen
    | CallClose
    | CallConnect
    | CallAccept
    | CallDisconnect
    | CallSend(apdu: ByteView)
    | CallReceive
    | CallReceiveInto(valid: bool, size: nat)

  datatype Outcome = Outcome(status: ProfileStatus, returned: seq<bytes>)

  datatype Step = Step(outcome: Outcome, chan: Chan)

  datatype History = History(outcomes: seq<Outcome>, chan: Chan)

  function Silent(r: Reply): Step {
    Step(Outcome(r.status, []), r.chan)
  }

  function Received(r: ApduReply): Step {
    Step(Outcome(r.status, if r.status == Ok then [r.apdu] else []), r.chan)
  }

  function Apply(o: ChannelOptions, c: Chan, call: Call): Step {
    match call
    case CallOpen => Silent(Open(c))
    case CallClose => Silent(Close(c))
    case CallConnect => Silent(ConnectDataLink(o, c))
    case CallAccept => Silent(AcceptDataLink(o, c))
    case CallDisconnect => Silent(DisconnectDataLink(o, c))
    case CallSend(apdu) => Silent(SendApdu(o, c, apdu))
    case CallReceive => Received(ReceiveApdu(o, c))
    case CallReceiveInto(valid, size) => Received(ReceiveApduInto(o, c, valid, size))
  }

  function Run(o: ChannelOptions, c: Chan, calls: seq<Call>): (h: History)
    ensures |h.outcomes| == |calls|
    decreases |calls|
  {
    if calls == [] then History([], c)
    else
      var first := Apply(o, c, calls[0]);
      var rest := Run(o, first.chan, calls[1..]);
      History([first.outcome] + rest.outcomes, rest.chan)
  }

  predicate AllOk(outcomes: seq<Outcome>) {
    forall i :: 0 <= i < |outcomes| ==> outcomes[i].status == Ok
  }

  /** The APDUs a run returned, in order. */
  function AllReturned(outcomes: seq<Outcome>): seq<bytes> {
    if outcomes == [] then [] else outcomes[0].returned + AllReturned(outcomes[1..])
  }
}
