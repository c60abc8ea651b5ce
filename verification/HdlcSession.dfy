/** The HDLC data-link session (link set-up, sequence numbers modulo 8, send
    window) and the reassembler of segmented information fields. */
module HdlcSession {
  import opened Basics
  import opened Statuses
  import opened HdlcCodec

  datatype Role = Client | Server

  datatype NegotiationLimits = NegotiationLimits(
    maxInformationTransmit: Size,
    maxInformationReceive: Size,
    windowTransmit: byte,
    windowReceive: byte)

  datatype SessionOptions = SessionOptions(
    role: Role,
    clientAddress: Address,
    serverAddress: Address,
    limits: CodecLimits,
    negotiation: NegotiationLimits)

  datatype LinkState = Disconnected | Connecting | ConnectRequested | Connected | Disconnecting

  /** The outcome of asking a session for a frame, or of showing it one. */
  datatype Built = Built(status: HdlcStatus, frameBytes: bytes, session: Session)
  datatype Heard = Heard(status: HdlcStatus, session: Session)

  /** The number of frames that may be unacknowledged: 0 asks for the default
      of 1, and modulo-8 numbering allows at most 7. */
  function EffectiveWindow(size: nat): (w: nat)
    ensures 1 <= w <= 7
  {
    if size == 0 then 1 else Min(size, 7)
  }

  function Increment(n: Mod8): Mod8 {
    (n + 1) % 8
  }

  /** How far `to` is ahead of `from`, modulo 8. */
  function Distance(from: Mod8, to: Mod8): Mod8 {
    (to - from) % 8
  }

  /** `vs`: next number to send; `vr`: next number expected; `va`: oldest
      number not yet acknowledged. */
  datatype Session = Session(options: SessionOptions, state: LinkState, vs: Mod8, vr: Mod8, va: Mod8) {

    function Local(): Address {
      if options.role == Client then options.clientAddress else options.serverAddress
    }

    function Remote(): Address {
      if options.role == Client then options.serverAddress else options.clientAddress
    }

    function Window(): nat {
      EffectiveWindow(options.negotiation.windowTransmit)
    }

    function Unacknowledged(): nat {
      Distance(va, vs)
    }

    predicate CanSendInformationFrame() {
      state == Connected && Unacknowledged() < Window()
    }

    function Linked(): Session {
      this.(state := Connected, vs := 0, vr := 0, va := 0)
    }

    function Outgoing(control: Control, information: bytes): Frame {
      Frame(false, Remote(), Local(), control, information)
    }

    /** Encodes a frame; the session moves to `next` only if that succeeds. */
    function Emit(control: Control, information: bytes, next: Session): Built {
      match EncodeFrame(options.limits, Outgoing(control, information))
      case Success(b) => Built(HdlcOk, b, next)
      case Failure(s) => Built(s, [], this)
    }

    function BuildConnectRequest(): Built {
      if options.role == Client && (state == Disconnected || state == Connecting)
      then Emit(SetNormalResponse, [], this.(state := Connecting))
      else Built(HdlcInvalidArgument, [], this)
    }

    function BuildConnectResponse(): Built {
      if state == ConnectRequested then Emit(UnnumberedAck, [], Linked())
      else Built(HdlcInvalidArgument, [], this)
    }

    function BuildDisconnectRequest(): Built {
      if state == Connected || state == Disconnecting
      then Emit(Disconnect, [], this.(state := Disconnecting))
      else Built(HdlcInvalidArgument, [], this)
    }

    function BuildInformationFrame(information: bytes, pollFinal: bool): Built {
      if CanSendInformationFrame()
      then Emit(Information(vs, vr, pollFinal), information, this.(vs := Increment(vs)))
      else Built(HdlcInvalidArgument, [], this)
    }

    function BuildReceiveReadyFrame(pollFinal: bool): Built {
      if state == Connected then Emit(ReceiveReady(vr, pollFinal), [], this)
      else Built(HdlcInvalidArgument, [], this)
    }

    /** N(R) may acknowledge only frames that are outstanding. */
    predicate AcknowledgesSent(nr: Mod8) {
      Distance(va, nr) <= Distance(va, vs)
    }

    function ReceiveFrame(f: Frame): Heard {
      if f.destination != Local() || f.source != Remote() then Heard(HdlcInvalidAddress, this)
      else
        match f.control
        case SetNormalResponse =>
          if options.role == Server then Heard(HdlcOk, this.(state := ConnectRequested))
          else Heard(HdlcInvalidFrameType, this)
        case UnnumberedAck =>
          if state == Connecting then Heard(HdlcOk, Linked())
          else if state == Disconnecting then Heard(HdlcOk, this.(state := Disconnected))
          else Heard(HdlcInvalidFrameType, this)
        case Disconnect =>
          if state == Connected then Heard(HdlcOk, this.(state := Disconnected))
          else Heard(HdlcInvalidFrameType, this)
        case Information(ns, nr, _) =>
          if state != Connected then Heard(HdlcInvalidFrameType, this)
          else if ns != vr || !AcknowledgesSent(nr) then Heard(HdlcInvalidControlField, this)
          else Heard(HdlcOk, this.(vr := Increment(vr), va := nr))
        case ReceiveReady(nr, _) =>
          if state != Connected then Heard(HdlcInvalidFrameType, this)
          else if !AcknowledgesSent(nr) then Heard(HdlcInvalidControlField, this)
          else Heard(HdlcOk, this.(va := nr))
    }
  }

  function NewSession(options: SessionOptions): Session {
    Session(options, Disconnected, 0, 0, 0)
  }

  /** The outcome of pushing a frame into the reassembler. `hasCompleted` is
      set only for a whole information field; other frames pass through. */
  datatype Reassembled = Reassembled(status: HdlcStatus, completed: Frame, hasCompleted: bool, reassembler: Reassembler)

  /** `partial` holds the header of the first segment with the information
      gathered so far. */
  datatype Reassembler = Reassembler(maximumSize: nat, partial: Option<Frame>) {

    function Reset(): Reassembler { this.(partial := None) }

    function Gathered(): nat {
      if partial.Some? then |partial.value.information| else 0
    }

    static predicate SameLink(a: Frame, b: Frame) {
      a.destination == b.destination && a.source == b.source && a.control == b.control
    }

    function PushFrame(f: Frame): Reassembled {
      if !f.control.Information? then
        if f.segmented then Reassembled(HdlcSegmentationError, f, false, this)
        else Reassembled(HdlcOk, f, false, this)
      else if partial.Some? && !SameLink(partial.value, f) then Reassembled(HdlcSegmentationError, f, false, this)
      else if Gathered() + |f.information| > maximumSize then Reassembled(HdlcSegmentationOverflow, f, false, this)
      else
        var joined := if partial.Some? then f.(information := partial.value.information + f.information) else f;
        if f.segmented then Reassembled(HdlcSegmentationIncomplete, f, false, this.(partial := Some(joined)))
        else Reassembled(HdlcOk, joined, true, Reset())
    }
  }
}
