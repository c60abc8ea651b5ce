/** What one call on a WRAPPER/TCP channel does, as functions on its state. */
module WrapperTcpSpec {
  import opened Basics
  import opened Statuses
  import opened WrapperCodec
  import opened ProfileTypes
  import opened Transport

  datatype TraceKind = EncodedFrame | DecodedFrame | ReadStatus | DecodeStatus

  datatype TraceDirection = Outbound | Inbound

  datatype TraceEvent = TraceEvent(
    kind: TraceKind,
    direction: TraceDirection,
    status: ProfileStatus,
    sourcePort: Word,
    destinationPort: Word,
    encodedSize: nat,
    apduSize: nat,
    payload: bytes)

  /** `trace` is what the sink has been shown. */
  datatype Tcp = Tcp(
    decoder: WrapperDecoder, pending: seq<WrapperFrame>, capacity: nat, wire: Wire, trace: seq<TraceEvent>)

  datatype Reply = Reply(status: ProfileStatus, state: Tcp)

  datatype ApduReply = ApduReply(status: ProfileStatus, apdu: bytes, state: Tcp)

  function MakeWrapperLimits(o: ChannelOptions): WrapperLimits {
    var limits := o.defaultWrapperLimits;
    if o.maximumApduSize != 0 && o.maximumApduSize < limits.maximumDataSize
    then WrapperLimits(o.maximumApduSize, HEADER_SIZE + o.maximumApduSize)
    else limits
  }

  function Initial(o: ChannelOptions, wire: Wire): Tcp {
    Tcp(WrapperDecoder(MakeWrapperLimits(o), []), [], ScratchSize(o), wire, [])
  }

  function EmitTrace(o: ChannelOptions, s: Tcp, events: seq<TraceEvent>): Tcp {
    if o.wrapperTcpTraceSink then s.(trace := s.trace + events) else s
  }

  function StatusEvent(kind: TraceKind, status: ProfileStatus, payload: bytes): TraceEvent {
    TraceEvent(kind, Inbound, status, 0, 0, 0, 0, payload)
  }

  function EncodedEvent(f: WrapperFrame, wpdu: bytes): TraceEvent {
    TraceEvent(EncodedFrame, Outbound, Ok, f.source, f.destination, |wpdu|, |f.data|, wpdu)
  }

  function DecodedEvent(f: WrapperFrame): TraceEvent {
    TraceEvent(DecodedFrame, Inbound, Ok, f.source, f.destination, HEADER_SIZE + |f.data|, |f.data|, f.data)
  }

  function DecodedEvents(frames: seq<WrapperFrame>): seq<TraceEvent> {
    seq(|frames|, i requires 0 <= i < |frames| => DecodedEvent(frames[i]))
  }

  function OutgoingFrame(o: ChannelOptions, apdu: bytes): WrapperFrame {
    WrapperFrame(o.localWrapperPort, o.remoteWrapperPort, apdu)
  }

  function Open(s: Tcp): Reply {
    Reply(MapTransportStatus(s.wire.openResult), s.(wire := s.wire.Open()))
  }

  function Close(s: Tcp): Reply {
    Reply(MapTransportStatus(s.wire.closeResult),
          s.(decoder := s.decoder.Reset(), pending := [], wire := s.wire.Close()))
  }

  function SendApdu(o: ChannelOptions, s: Tcp, apdu: ByteView): Reply {
    if !apdu.IsValid() then Reply(InvalidArgument, s)
    else if !WithinMaximum(o, |apdu.Bytes()|) then Reply(PayloadTooLarge, s)
    else
      var f := OutgoingFrame(o, apdu.Bytes());
      var encoded := EncodeWpdu(MakeWrapperLimits(o), f);
      if encoded.status != WrapperOk then Reply(MapWrapperStatus(encoded.status), s)
      else
        var traced := EmitTrace(o, s, [EncodedEvent(f, encoded.wpdu)]);
        var written := traced.wire.WriteAll(encoded.wpdu);
        Reply(MapTransportStatus(written.status), traced.(wire := written.wire))
  }

  /** Reads until a push decodes something, or a read or a push fails. */
  function ReceiveNextFrame(o: ChannelOptions, s: Tcp): (r: Reply)
    ensures |r.state.wire.script| <= |s.wire.script|
    ensures r.status == Ok ==> |r.state.wire.script| < |s.wire.script|
    decreases |s.wire.script|
  {
    if s.capacity == 0 then Reply(InvalidArgument, s)
    else
      var read := s.wire.ReadSome(s.capacity);
      var readStatus := MapTransportStatus(read.status);
      var s1 := s.(wire := read.wire);
      if readStatus != Ok then Reply(readStatus, EmitTrace(o, s1, [StatusEvent(ReadStatus, readStatus, [])]))
      else if read.data == [] then Reply(NeedMoreData, s1)
      else
        var pushed := s1.decoder.Feed(read.data);
        var decodeStatus := MapWrapperStatus(VerdictStatus(pushed.verdict));
        var s2 := s1.(decoder := s1.decoder.(buffer := pushed.buffer));
        if decodeStatus == Ok then
          Reply(Ok, EmitTrace(o, s2, DecodedEvents(pushed.frames)).(pending := s2.pending + pushed.frames))
        else if decodeStatus != NeedMoreData then
          Reply(decodeStatus,
                EmitTrace(o, s2, [StatusEvent(DecodeStatus, decodeStatus, read.data)]).(decoder := s2.decoder.Reset()))
        else ReceiveNextFrame(o, s2)
  }

  /** Receives until a frame is pending. */
  function Await(o: ChannelOptions, s: Tcp): (r: Reply)
    ensures r.status == Ok ==> r.state.pending != []
    decreases |s.wire.script|
  {
    if s.pending != [] then Reply(Ok, s)
    else
      var r := ReceiveNextFrame(o, s);
      if r.status != Ok then r else Await(o, r.state)
  }

  /** The form that returns the APDU as a vector. */
  function ReceiveApdu(o: ChannelOptions, s: Tcp): ApduReply {
    var r := Await(o, s);
    if r.status != Ok then ApduReply(r.status, [], r.state)
    else ApduReply(Ok, r.state.pending[0].data, r.state.(pending := r.state.pending[1..]))
  }

  /** The form that copies the APDU into a caller's buffer of `size` bytes. */
  function ReceiveApduInto(o: ChannelOptions, s: Tcp, valid: bool, size: nat): ApduReply {
    if !valid then ApduReply(InvalidArgument, [], s)
    else
      var r := Await(o, s);
      if r.status != Ok then ApduReply(r.status, [], r.state)
      else if size < |r.state.pending[0].data| then ApduReply(OutputBufferTooSmall, [], r.state)
      else ApduReply(Ok, r.state.pending[0].data, r.state.(pending := r.state.pending[1..]))
  }

  /** Whole runs. */
  datatype Call =
    | CallOpen
    | CallClose
    | CallSend(apdu: ByteView)
    | CallReceive
    | CallReceiveInto(valid: bool, size: nat)

  /** What a call returned, and what it discarded. */
  datatype Outcome = Outcome(status: ProfileStatus, returned: seq<bytes>, dropped: seq<bytes>)

  datatype Step = Step(outcome: Outcome, state: Tcp)

  datatype History = History(outcomes: seq<Outcome>, state: Tcp)

  function Payloads(frames: seq<WrapperFrame>): seq<bytes> {
    seq(|frames|, i requires 0 <= i < |frames| => frames[i].data)
  }

  function Received(r: ApduReply): Step {
    Step(Outcome(r.status, if r.status == Ok then [r.apdu] else [], []), r.state)
  }

  function Apply(o: ChannelOptions, s: Tcp, call: Call): Step {
    match call
    case CallOpen => var r := Open(s); Step(Outcome(r.status, [], []), r.state)
    case CallClose => var r := Close(s); Step(Outcome(r.status, [], Payloads(s.pending)), r.state)
    case CallSend(apdu) => var r := SendApdu(o, s, apdu); Step(Outcome(r.status, [], []), r.state)
    case CallReceive => Received(ReceiveApdu(o, s))
    case CallReceiveInto(valid, size) => Received(ReceiveApduInto(o, s, valid, size))
  }

  function Run(o: ChannelOptions, s: Tcp, calls: seq<Call>): (h: History)
    ensures |h.outcomes| == |calls|
    decreases |calls|
  {
    if calls == [] then History([], s)
    else
      var first := Apply(o, s, calls[0]);
      var rest := Run(o, first.state, calls[1..]);
      History([first.outcome] + rest.outcomes, rest.state)
  }

  predicate AllOk(outcomes: seq<Outcome>) {
    forall i :: 0 <= i < |outcomes| ==> outcomes[i].status == Ok
  }

  /** The APDUs a run returned, in order. */
  function Returned(outcomes: seq<Outcome>): seq<bytes> {
    if outcomes == [] then [] else outcomes[0].returned + Returned(outcomes[1..])
  }

  /** The APDUs that left the queue, returned or dropped, in order. */
  function Left(outcomes: seq<Outcome>): seq<bytes> {
    if outcomes == [] then [] else outcomes[0].returned + outcomes[0].dropped + Left(outcomes[1..])
  }
}
