/** What a caller of an HDLC channel sees: the bytes each call writes, the frames
    the peer gets and the status returned, told from the options and the inputs. */
module HdlcOutcomes {
  import opened Basics
  import opened Statuses
  import opened HdlcCodec
  import opened HdlcSession
  import opened ProfileTypes
  import opened Transport
  import opened HdlcChannelSpec
  import opened HdlcDelivery
  import opened HdlcReceive
  import opened HdlcArrival
  import opened HdlcRestart
  import HdlcRetry
  import HdlcSetup
  import LlcCodec

  // ---------------------------------------------------------------------
  // The stream
  // ---------------------------------------------------------------------

  /** Opening and closing reach the stream, and closing throws away all that had
      been received, whatever the stream answers. */
  lemma OpenAndCloseReachTheStream(c: Chan)
    ensures var r := Open(c);
            && r.status == MapTransportStatus(c.wire.openResult)
            && r.chan == c.(wire := c.wire.(open := c.wire.open || c.wire.openResult == TransportOk))
    ensures var r := Close(c);
            && r.status == MapTransportStatus(c.wire.closeResult)
            && r.chan == c.(decoder := HdlcDecoder(c.decoder.limits, []), pendingFrames := [], pendingApdus := [],
                            reassembler := Reassembler(c.reassembler.maximumSize, None), log := r.chan.log,
                            wire := c.wire.(open := c.wire.open && c.wire.closeResult != TransportOk))
  {}

  // ---------------------------------------------------------------------
  // Waiting
  // ---------------------------------------------------------------------

  /** The reads after which a frame is written again. */
  predicate Again(status: TransportStatus) {
    status in {TransportOk, TransportWouldBlock, TransportTimeout}
  }

  /** The sleep before a retransmission succeeds, or there is none. */
  predicate SleepsWell(o: ChannelOptions, c: Chan) {
    o.hdlcRetryDelayMilliseconds == 0 || c.sleeps == [] || c.sleeps[0] == TransportOk
  }

  function Rest(results: seq<TransportStatus>): seq<TransportStatus> {
    if results == [] then [] else results[1..]
  }

  /** One read that brings nothing, with retries left. If it would block, timed out
      or took no byte, the wait sleeps and writes the same bytes exactly once more;
      a failing sleep or write ends it with its own status. Any other failing read
      ends it with its own status, and nothing is written. */
  lemma EmptyReadDecides(o: ChannelOptions, c: Chan, b: bytes, attempt: nat) returns (next: Chan)
    requires attempt < o.hdlcRetryCount && c.pendingFrames == [] && c.capacity > 0
    requires c.wire.ReadSome(c.capacity).data == []
    ensures var read := c.wire.ReadSome(c.capacity);
            var r := AwaitControlFrame(o, c, b, attempt);
            if !Again(read.status) then
              && r.status == MapTransportStatus(read.status)
              && r.chan == c.(wire := read.wire, log := r.chan.log)
            else if !SleepsWell(o, c) then
              r.status == MapTransportStatus(c.sleeps[0]) && r.chan.wire == read.wire
            else if NextWrite(read.wire) != Ok then
              r.status == NextWrite(read.wire) && r.chan.wire.writes == c.wire.writes + [b]
            else
              && next == c.(log := next.log,
                            sleeps := if o.hdlcRetryDelayMilliseconds == 0 then c.sleeps else Rest(c.sleeps),
                            wire := read.wire.(outbound := read.wire.outbound + [b], writes := c.wire.writes + [b],
                                               writeResults := Rest(read.wire.writeResults)))
              && r == AwaitControlFrame(o, next, b, attempt + 1)
  {
    hide ReceiveSessionControlFrame, SleepBeforeRetry, WriteFrameBytes, Wire.ReadSome;
    var read := c.wire.ReadSome(c.capacity);
    EmptyReadReceived(c);
    var received := ReceiveSessionControlFrame(c);
    Rewriting(o, received.chan, b);
    next := WriteFrameBytes(SleepBeforeRetry(o, received.chan).chan, b).chan;
  }

  lemma EmptyReadReceived(c: Chan)
    requires c.pendingFrames == [] && c.capacity > 0 && c.wire.ReadSome(c.capacity).data == []
    ensures var read := c.wire.ReadSome(c.capacity);
            var r := ReceiveSessionControlFrame(c);
            && r.chan == c.(wire := read.wire, log := r.chan.log) && r.status != Ok
            && (IsRetriable(r.status) <==> Again(read.status))
            && (read.status != TransportOk ==> r.status == MapTransportStatus(read.status))
            && read.wire.writes == c.wire.writes
  {
    hide Session.ReceiveFrame, HdlcDecoder.Feed, Wire.ReadSome;
    ReadWritesNothing(c.wire, c.capacity);
  }

  lemma Rewriting(o: ChannelOptions, c: Chan, b: bytes)
    ensures var slept := SleepBeforeRetry(o, c);
            var written := WriteFrameBytes(slept.chan, b);
            if !SleepsWell(o, c) then slept.status == MapTransportStatus(c.sleeps[0]) != Ok && slept.chan.wire == c.wire
            else
              && slept.status == Ok && written.status == NextWrite(c.wire)
              && written.chan.wire.writes == c.wire.writes + [b]
              && (NextWrite(c.wire) == Ok ==>
                    written.chan == c.(log := written.chan.log,
                      sleeps := if o.hdlcRetryDelayMilliseconds == 0 then c.sleeps else Rest(c.sleeps),
                      wire := c.wire.(outbound := c.wire.outbound + [b], writes := c.wire.writes + [b],
                                      writeResults := Rest(c.wire.writeResults))))
  {}

  /** On a line that stays silent the whole budget is used: the frame is written
      again exactly as often as the retry count allows. */
  lemma {:induction false} SilentWaitUsesTheBudget(o: ChannelOptions, c: Chan, b: bytes, attempt: nat)
    requires attempt <= o.hdlcRetryCount && c.pendingFrames == [] && c.capacity > 0
    requires c.wire.open && c.wire.script == [] && c.wire.writeResults == [] && c.sleeps == []
    ensures var r := AwaitControlFrame(o, c, b, attempt);
            && r.status == WouldBlock
            && r.chan.wire.writes == c.wire.writes + HdlcRetry.Copies(b, o.hdlcRetryCount - attempt)
    decreases o.hdlcRetryCount - attempt
  {
    hide ReceiveSessionControlFrame, SleepBeforeRetry, WriteFrameBytes;
    EmptyReadReceived(c);
    if attempt < o.hdlcRetryCount {
      var next := EmptyReadDecides(o, c, b, attempt);
      SilentWaitUsesTheBudget(o, next, b, attempt + 1);
      var left := o.hdlcRetryCount - attempt;
      assert [b] + HdlcRetry.Copies(b, left - 1) == HdlcRetry.Copies(b, left);
      assert (c.wire.writes + [b]) + HdlcRetry.Copies(b, left - 1) == c.wire.writes + HdlcRetry.Copies(b, left);
    }
  }

  /** A queue that is empty, a stream that never answers, and nothing else failing. */
  predicate Silent(c: Chan) {
    && c.pendingFrames == [] && c.capacity > 0
    && c.wire.open && c.wire.script == [] && c.wire.writeResults == [] && c.sleeps == []
  }

  lemma SilentExchange(o: ChannelOptions, c: Chan, b: bytes)
    requires Silent(c)
    ensures var r := WriteAndAwait(o, c, b);
            && r.status == WouldBlock
            && r.chan.wire.writes == c.wire.writes + HdlcRetry.Copies(b, o.hdlcRetryCount + 1)
  {
    hide AwaitControlFrame;
    SilentWaitUsesTheBudget(o, WriteFrameBytes(c, b).chan, b, 0);
    assert (c.wire.writes + [b]) + HdlcRetry.Copies(b, o.hdlcRetryCount)
        == c.wire.writes + HdlcRetry.Copies(b, o.hdlcRetryCount + 1);
  }

  // ---------------------------------------------------------------------
  // The session and its options
  // ---------------------------------------------------------------------

  predicate AddressesAreValid(o: ChannelOptions) {
    o.hdlcClientAddress < 0x80 && o.hdlcLogicalDeviceAddress < 0x4000 && o.hdlcPhysicalDeviceAddress < 0x4000
  }

  /** The largest information field that can be gathered. */
  function LargestField(o: ChannelOptions): nat {
    var least := o.defaultHdlcLimits.maximumReassembledInformationSize;
    var wanted := (o.maximumApduSize + 3) % 0x1_0000_0000_0000_0000;
    if o.maximumApduSize != 0 && least < wanted then wanted else least
  }

  /** A session that has just been made from the options. */
  predicate MadeFrom(o: ChannelOptions, s: Session) {
    && s.state == Disconnected && s.vs == s.vr == s.va == 0
    && s.options.role == o.hdlcRole
    && s.options.clientAddress == Address(o.hdlcClientAddress, 0)
    && s.options.serverAddress == Address(o.hdlcLogicalDeviceAddress, o.hdlcPhysicalDeviceAddress)
    && s.options.limits == CodecLimits(o.defaultHdlcLimits.maximumInformationFieldSize, LargestField(o))
    && s.options.negotiation.maxInformationTransmit == o.hdlcMaxInformationFieldLengthTransmit
    && s.options.negotiation.maxInformationReceive == o.hdlcMaxInformationFieldLengthReceive
    && s.options.negotiation.windowTransmit == o.hdlcWindowSizeTransmit
    && s.options.negotiation.windowReceive == o.hdlcWindowSizeReceive
  }

  /** The link layer of a channel, empty and with the limits of its session. */
  predicate LinkLayerIsNew(c: Chan) {
    && c.limits == c.session.options.limits && c.decoder == HdlcDecoder(c.session.options.limits, [])
    && c.reassembler == Reassembler(c.session.options.limits.maximumReassembledInformationSize, None)
    && c.pendingFrames == []
  }

  /** A new channel has the session its options describe; with addresses that
      cannot be encoded it has the default one: client 0x10 and server 1, 0. */
  lemma NewChannelHasItsSession(o: ChannelOptions, wire: Wire, sleeps: seq<TransportStatus>)
    ensures var c := Initial(o, wire, sleeps);
            && LinkLayerIsNew(c) && c.pendingApdus == [] && c.wire == wire && c.sleeps == sleeps
            && c.capacity == (if o.scratchBufferSize == 0 then 2048 else o.scratchBufferSize)
            && if AddressesAreValid(o) then MadeFrom(o, c.session)
               else
                 && c.session.state == Disconnected && c.session.vs == c.session.vr == c.session.va == 0
                 && c.session.options == SessionOptions(Client, Address(0x10, 0), Address(1, 0),
                                                        o.defaultHdlcLimits, o.defaultNegotiation)
  {}

  /** A disconnected session is replaced by the one the options describe, with a new
      link layer; any other is kept; invalid addresses are refused first. */
  lemma SessionIsRenewed(o: ChannelOptions, c: Chan)
    ensures var r := EnsureSession(o, c);
            && (!AddressesAreValid(o) ==> r == Reply(InvalidAddress, c))
            && (AddressesAreValid(o) && c.session.state != Disconnected ==> r == Reply(Ok, c))
            && (AddressesAreValid(o) && c.session.state == Disconnected ==>
                  && r.status == Ok && MadeFrom(o, r.chan.session) && LinkLayerIsNew(r.chan)
                  && r.chan.pendingApdus == c.pendingApdus && r.chan.wire == c.wire && r.chan.sleeps == c.sleeps
                  && r.chan.capacity == c.capacity)
  {}

  /** How many frames may be unacknowledged: one by default, and at most seven. */
  function SendWindow(o: ChannelOptions): nat {
    if o.hdlcWindowSizeTransmit == 0 then 1 else if o.hdlcWindowSizeTransmit > 7 then 7 else o.hdlcWindowSizeTransmit
  }

  /** How many frames are unacknowledged. */
  function Outstanding(s: Session): nat {
    if s.vs >= s.va then s.vs - s.va else s.vs + 8 - s.va
  }

  /** The addresses and the window of a channel that a run can reach are those of its options. */
  lemma AddressesOf(o: ChannelOptions, s: Session)
    requires SessionBelongs(o, s) && AddressesAreValid(o)
    ensures s.options.role == o.hdlcRole
    ensures s.options.negotiation.maxInformationTransmit == o.hdlcMaxInformationFieldLengthTransmit
    ensures s.CanSendInformationFrame() <==> s.state == Connected && Outstanding(s) < SendWindow(o)
    ensures var client := Address(o.hdlcClientAddress, 0);
            var server := Address(o.hdlcLogicalDeviceAddress, o.hdlcPhysicalDeviceAddress);
            && s.Local() == (if o.hdlcRole == Client then client else server)
            && s.Remote() == (if o.hdlcRole == Client then server else client)
  {}

  // ---------------------------------------------------------------------
  // Link set-up and release
  // ---------------------------------------------------------------------

  /** A frame without information to the other end, addressed from the options. */
  function Greeting(o: ChannelOptions, control: Control): Frame {
    var client := Address(o.hdlcClientAddress, 0);
    var server := Address(o.hdlcLogicalDeviceAddress, o.hdlcPhysicalDeviceAddress);
    if o.hdlcRole == Client then Frame(false, server, client, control, [])
    else Frame(false, client, server, control, [])
  }

  /** Connecting, case by case. Once the guards are passed, the call writes the
      request, and nothing else, between once and the retry count plus one times. */
  lemma ConnectOutcome(o: ChannelOptions, c: Chan) returns (k: nat)
    requires Belongs(o, c)
    ensures var r := ConnectDataLink(o, c);
            if !o.hdlcUseSession then r == Reply(UnsupportedFeature, c)
            else if !c.wire.open then r == Reply(NotOpen, c)
            else if o.hdlcRole == Server then r == Reply(UnsupportedFeature, c)
            else if !AddressesAreValid(o) then r == Reply(InvalidAddress, c)
            else if c.session.state == Connected || c.session.state == Disconnecting then r == Reply(InvalidArgument, c)
            else
              && 1 <= k <= o.hdlcRetryCount + 1
              && r.chan.wire.writes
                 == c.wire.writes + HdlcRetry.Copies(FrameBytes(Greeting(o, SetNormalResponse)), k)
              && (c.wire.writeResults != [] && c.wire.writeResults[0] != TransportOk ==>
                    k == 1 && r.status == MapTransportStatus(c.wire.writeResults[0]))
              && (Silent(c) ==> k == o.hdlcRetryCount + 1 && r.status == WouldBlock)
  {
    hide WriteAndAwait, FrameBytes, Belongs;
    k := 0;
    SessionOf(o, c);
    if o.hdlcUseSession && c.wire.open && o.hdlcRole == Client && AddressesAreValid(o) {
      EnsuringBelongs(o, c);
      var e := EnsureSession(o, c).chan;
      SessionOf(o, e);
      AddressesOf(o, e.session);
      if e.session.state == Disconnected || e.session.state == Connecting {
        var built := e.session.BuildConnectRequest();
        var started := e.(session := built.session);
        k := WrittenAndAwaited(o, started, built.frameBytes);
      }
    }
  }

  lemma SessionOf(o: ChannelOptions, c: Chan)
    requires Belongs(o, c)
    ensures SessionBelongs(o, c.session)
    ensures c.session.state == ConnectRequested && AddressesAreValid(o) ==> o.hdlcRole == Server
    ensures c.session.state == Connecting && AddressesAreValid(o) ==> o.hdlcRole == Client
  {}

  lemma SameCopies(w: seq<bytes>, b: bytes, k: nat, m: nat)
    requires w + HdlcRetry.Copies(b, k) == w + HdlcRetry.Copies(b, m)
    ensures k == m
  {
    assert |w + HdlcRetry.Copies(b, k)| == |w| + k && |w + HdlcRetry.Copies(b, m)| == |w| + m;
  }

  /** A frame is written and awaited: how often, and with which status in the two
      cases where nothing comes in. */
  lemma WrittenAndAwaited(o: ChannelOptions, c: Chan, b: bytes) returns (k: nat)
    ensures var r := WriteAndAwait(o, c, b);
            && 1 <= k <= o.hdlcRetryCount + 1 && r.chan.wire.writes == c.wire.writes + HdlcRetry.Copies(b, k)
            && (NextWrite(c.wire) != Ok ==> k == 1 && r.status == NextWrite(c.wire))
            && (Silent(c) ==> k == o.hdlcRetryCount + 1 && r.status == WouldBlock)
  {
    hide WriteAndAwait;
    k := HdlcRetry.FrameStaysInBudget(o, c, b);
    FailedWriteEndsTheCall(o, c, b, k);
    if Silent(c) {
      SilentExchange(o, c, b);
      SameCopies(c.wire.writes, b, k, o.hdlcRetryCount + 1);
    }
  }

  lemma FailedWriteEndsTheCall(o: ChannelOptions, c: Chan, b: bytes, k: nat)
    requires WriteAndAwait(o, c, b).chan.wire.writes == c.wire.writes + HdlcRetry.Copies(b, k)
    ensures NextWrite(c.wire) != Ok ==> k == 1 && WriteAndAwait(o, c, b).status == NextWrite(c.wire)
  {
    hide AwaitControlFrame;
    if NextWrite(c.wire) != Ok {
      assert [b] == HdlcRetry.Copies(b, 1);
      SameCopies(c.wire.writes, b, k, 1);
    }
  }

  /** Releasing, case by case: the disconnect is written like the request. */
  lemma DisconnectOutcome(o: ChannelOptions, c: Chan) returns (k: nat)
    requires Belongs(o, c) && AddressesAreValid(o)
    ensures var r := DisconnectDataLink(o, c);
            if !o.hdlcUseSession then r == Reply(UnsupportedFeature, c)
            else if !c.wire.open then r == Reply(NotOpen, c)
            else if c.session.state != Connected && c.session.state != Disconnecting then r == Reply(InvalidArgument, c)
            else
              && 1 <= k <= o.hdlcRetryCount + 1
              && r.chan.wire.writes == c.wire.writes + HdlcRetry.Copies(FrameBytes(Greeting(o, Disconnect)), k)
              && (c.wire.writeResults != [] && c.wire.writeResults[0] != TransportOk ==>
                    k == 1 && r.status == MapTransportStatus(c.wire.writeResults[0]))
              && (Silent(c) ==> k == o.hdlcRetryCount + 1 && r.status == WouldBlock)
  {
    hide WriteAndAwait, FrameBytes, Belongs;
    k := 0;
    SessionOf(o, c);
    AddressesOf(o, c.session);
    var built := c.session.BuildDisconnectRequest();
    if o.hdlcUseSession && c.wire.open && built.status == HdlcOk {
      var started := c.(session := built.session);
      k := WrittenAndAwaited(o, started, built.frameBytes);
    }
  }

  /** Accepting, case by case. One receive that leaves the session asked is answered
      with one write, whose status is the status of the call; anything else
      writes nothing and fails. */
  lemma AcceptOutcome(o: ChannelOptions, c: Chan)
    requires Belongs(o, c)
    ensures var r := AcceptDataLink(o, c);
            var heard := ReceiveSessionControlFrame(EnsureSession(o, c).chan);
            if !o.hdlcUseSession then r == Reply(UnsupportedFeature, c)
            else if !c.wire.open then r == Reply(NotOpen, c)
            else if o.hdlcRole == Client then r == Reply(UnsupportedFeature, c)
            else if !AddressesAreValid(o) then r == Reply(InvalidAddress, c)
            else if heard.status != Ok then r == heard && r.chan.wire.writes == c.wire.writes
            else if heard.chan.session.state != ConnectRequested then r == Reply(InvalidArgument, heard.chan)
            else
              && r.chan.wire.writes == c.wire.writes + [FrameBytes(Greeting(o, UnnumberedAck))]
              && r.status == NextWrite(heard.chan.wire)
              && r.chan.session == heard.chan.session.(state := Connected, vs := 0, vr := 0, va := 0)
  {
    hide ReceiveSessionControlFrame, FrameBytes, Belongs, HdlcRetry.Polls;
    if o.hdlcUseSession && c.wire.open && o.hdlcRole == Server && AddressesAreValid(o) {
      EnsuringBelongs(o, c);
      var e := EnsureSession(o, c).chan;
      ControlFrameBelongs(o, e);
      HdlcRetry.OneWaitPollsOnce(e);
      var heard := ReceiveSessionControlFrame(e).chan;
      SessionOf(o, heard);
      AddressesOf(o, heard.session);
    }
  }

  // ---------------------------------------------------------------------
  // Sending
  // ---------------------------------------------------------------------

  /** The three bytes before an APDU. */
  function HeaderBytes(d: LlcCodec.Direction): bytes {
    [0xE6, if d == LlcCodec.ServerToClient then 0xE7 else 0xE6, 0x00]
  }

  /** What is refused before anything is written, in both modes. */
  lemma SendGuards(o: ChannelOptions, c: Chan, size: nat, apdu: bytes)
    ensures size > 0 ==> SendApdu(o, c, NullView(size)) == Reply(InvalidArgument, c)
    ensures SendApdu(o, c, NullView(0)) == SendApdu(o, c, View([]))
    ensures var r := SendApdu(o, c, View(apdu));
            && ((o.maximumApduSize != 0 && |apdu| > o.maximumApduSize) || |apdu| + 3 >= 0x1_0000_0000_0000_0000 ==>
                  r == Reply(PayloadTooLarge, c))
            && (o.maximumApduSize == 0 || |apdu| <= o.maximumApduSize ==>
                  |apdu| + 3 < 0x1_0000_0000_0000_0000 && o.hdlcUseSession && c.session.state != Connected ==>
                    r == Reply(NotOpen, c))
  {
    hide SendSessionInformation, BuildFrame, WriteFrameBytes;
    if |apdu| + 3 < 0x1_0000_0000_0000_0000 && o.hdlcUseSession && c.session.state != Connected {
      NotConnectedSendsNothing(o, c);
    }
  }

  lemma NotConnectedSendsNothing(o: ChannelOptions, c: Chan)
    requires c.session.state != Connected
    ensures forall lpdu :: SendSessionInformation(o, c, lpdu) == Reply(NotOpen, c)
  {}

  /** The one frame of a send without a session. */
  function WholeFrame(o: ChannelOptions, apdu: bytes): Frame {
    var client := Address(o.hdlcClientAddress, 0);
    var server := Address(o.hdlcLogicalDeviceAddress, o.hdlcPhysicalDeviceAddress);
    if o.hdlcDirection == LlcCodec.ServerToClient
    then Frame(false, client, server, Information(0, 0, true), HeaderBytes(o.hdlcDirection) + apdu)
    else Frame(false, server, client, Information(0, 0, true), HeaderBytes(o.hdlcDirection) + apdu)
  }

  /** Sending without a session, case by case: nothing is written unless the frame
      can be built; then it is written once, and the call returns what the write did. */
  lemma PlainSendOutcome(o: ChannelOptions, c: Chan, apdu: bytes)
    requires !o.hdlcUseSession && (o.maximumApduSize == 0 || |apdu| <= o.maximumApduSize)
    requires |apdu| + 3 < 0x1_0000_0000_0000_0000
    ensures var r := SendApdu(o, c, View(apdu));
            if !AddressesAreValid(o) then r == Reply(InvalidAddress, c)
            else if 3 + |apdu| > c.limits.maximumInformationFieldSize || 14 + |apdu| > 0x7FF then
              r == Reply(PayloadTooLarge, c)
            else
              && r.status == NextWrite(c.wire) && r.chan.pendingApdus == c.pendingApdus && r.chan.session == c.session
              && r.chan.wire.writes == c.wire.writes + [FrameBytes(WholeFrame(o, apdu))]
              && r.chan.wire.outbound
                 == c.wire.outbound + if NextWrite(c.wire) == Ok then [FrameBytes(WholeFrame(o, apdu))] else []
  {
    assert DecodeControl(PLAIN_CONTROL) == Some(Information(0, 0, true));
    assert c.wire.outbound + [] == c.wire.outbound;
  }

  /** How many bytes a frame of a session send may carry: the configured maximum, or
      without one the whole LPDU. */
  function Piece(o: ChannelOptions, apdu: bytes): nat {
    if o.hdlcMaxInformationFieldLengthTransmit == 0 then 3 + |apdu| else o.hdlcMaxInformationFieldLengthTransmit
  }

  /** A session send is cut to the configured size. On a drained line, when it
      returns Ok within the overflow bound: the frames the peer accepted for it are
      as many as the ceiling of the LPDU's size by the maximum, one if there is no
      maximum; all but the last carry exactly the maximum and are segmented; the
      last carries the rest, alone polls and is not segmented; they are addressed
      from the options, numbered in sequence, and together carry the header and
      the APDU. */
  lemma SessionSendIsCutToSize(o: ChannelOptions, c: Chan, apdu: bytes) returns (got: seq<Frame>)
    requires o.hdlcUseSession && Belongs(o, c) && AddressesAreValid(o) && LineDrained(c)
    requires 3 + |apdu| + Piece(o, apdu) - 1 < 0x1_0000_0000_0000_0000
    requires SendApdu(o, c, View(apdu)).status == Ok
    ensures AcceptedBy(SendApdu(o, c, View(apdu)).chan.wire.peer) == AcceptedBy(c.wire.peer) + got
    ensures |got| == (3 + |apdu| + Piece(o, apdu) - 1) / Piece(o, apdu)
    ensures o.hdlcMaxInformationFieldLengthTransmit == 0 ==> |got| == 1
    ensures |got| >= 1 && Concat(Informations(got)) == HeaderBytes(o.hdlcDirection) + apdu
    ensures forall i :: 0 <= i < |got| - 1 ==> |got[i].information| == Piece(o, apdu)
    ensures 1 <= |got[|got| - 1].information| <= Piece(o, apdu)
    ensures forall i :: 0 <= i < |got| ==>
              got[i] == Greeting(o, Information((c.session.vs + i) % 8, c.session.vr, i == |got| - 1)).(
                          segmented := i < |got| - 1, information := got[i].information)
  {
    hide LineDrained, SendSessionInformation, SendApdu, Belongs, AcceptedBy, Segments, CaughtUp, ChunkSize;
    hide HeaderBytes, Session.Remote, Session.Local;
    var lpdu := HeaderBytes(o.hdlcDirection) + apdu;
    SendApduSendsLpdu(o, c, apdu);
    PieceIsChunk(o, c, apdu);
    var k := SendIsDelivered(o, c, lpdu);
    got := Segments(c.session, lpdu, Piece(o, apdu), 0);
    assert got[..|got|] == got && lpdu[0..] == lpdu;
    SegmentsAreCut(c.session, lpdu, Piece(o, apdu));
    if o.hdlcMaxInformationFieldLengthTransmit == 0 {
      QuotientIs(3 + |apdu| + Piece(o, apdu) - 1, Piece(o, apdu), 1, Piece(o, apdu) - 1);
    }
  }

  lemma PieceIsChunk(o: ChannelOptions, c: Chan, apdu: bytes)
    requires Belongs(o, c) && AddressesAreValid(o)
    ensures var lpdu := HeaderBytes(o.hdlcDirection) + apdu;
            && lpdu == LlcCodec.Header(o.hdlcDirection) + apdu && |lpdu| == 3 + |apdu|
            && ChunkSize(c, lpdu) == Piece(o, apdu) > 0
            && c.session.Remote() == Greeting(o, Disconnect).destination
            && c.session.Local() == Greeting(o, Disconnect).source
  {
    hide Belongs;
    SessionOf(o, c);
    AddressesOf(o, c.session);
  }

  /** The segments of an LPDU, all together. */
  lemma SegmentsAreCut(s: Session, lpdu: bytes, chunk: nat)
    requires lpdu != [] && chunk > 0
    ensures var got := Segments(s, lpdu, chunk, 0);
            && |got| == (|lpdu| + chunk - 1) / chunk && |got| >= 1 && Concat(Informations(got)) == lpdu
            && (forall i :: 0 <= i < |got| - 1 ==> |got[i].information| == chunk)
            && 1 <= |got[|got| - 1].information| <= chunk
            && (forall i :: 0 <= i < |got| ==>
                  got[i] == Frame(i < |got| - 1, s.Remote(), s.Local(),
                                  Information((s.vs + i) % 8, s.vr, i == |got| - 1), got[i].information))
  {
    hide Segments, Session.Remote, Session.Local;
    var got := Segments(s, lpdu, chunk, 0);
    SegmentCount(s, lpdu, chunk, 0);
    SegmentsCoverLpdu(s, lpdu, chunk, 0);
    assert lpdu[0..] == lpdu;
    forall i | 0 <= i < |got|
      ensures got[i].segmented == (i < |got| - 1) && (i < |got| - 1 ==> |got[i].information| == chunk)
      ensures got[i].control == Information((s.vs + i) % 8, s.vr, i == |got| - 1)
      ensures 1 <= |got[i].information| <= chunk
      ensures got[i].destination == s.Remote() && got[i].source == s.Local()
    {
      SegmentShape(s, lpdu, chunk, 0, i);
      SegmentAddresses(s, lpdu, chunk, 0, i);
    }
  }

  lemma {:induction false} SegmentAddresses(s: Session, lpdu: bytes, chunk: nat, offset: nat, i: nat)
    requires offset <= |lpdu| && (offset < |lpdu| ==> chunk > 0)
    requires i < |Segments(s, lpdu, chunk, offset)|
    ensures var f := Segments(s, lpdu, chunk, offset)[i]; f.destination == s.Remote() && f.source == s.Local()
    decreases i
  {
    if i > 0 {
      var next := s.(vs := Increment(s.vs));
      assert next.Remote() == s.Remote() && next.Local() == s.Local();
      SegmentAddresses(next, lpdu, chunk, offset + Min(chunk, |lpdu| - offset), i - 1);
    }
  }

  /** An APDU that fits one frame is sent as one final chunk. */
  lemma OnePiece(o: ChannelOptions, c: Chan, apdu: bytes)
    requires o.hdlcUseSession && Belongs(o, c) && AddressesAreValid(o) && c.session.state == Connected
    requires o.maximumApduSize == 0 || |apdu| <= o.maximumApduSize
    requires o.hdlcMaxInformationFieldLengthTransmit == 0 || 3 + |apdu| <= o.hdlcMaxInformationFieldLengthTransmit
    requires 3 + |apdu| + Piece(o, apdu) - 1 < 0x1_0000_0000_0000_0000
    ensures SendApdu(o, c, View(apdu)) == SendChunk(o, InstallLimit(c), HeaderBytes(o.hdlcDirection) + apdu, true)
  {
    hide SendChunk, Belongs, FrameCount, SendChunks;
    SessionOf(o, c);
    AddressesOf(o, c.session);
    var lpdu := LlcCodec.Header(o.hdlcDirection) + apdu;
    assert lpdu == HeaderBytes(o.hdlcDirection) + apdu;
    var chunk := ChunkSize(c, lpdu);
    FrameCountIsExactUnlessItOverflows(|lpdu|, chunk);
    FinalByCount(|lpdu|, chunk);
    assert lpdu[0..0 + |lpdu|] == lpdu;
    SendChunksUnfolds(o, InstallLimit(c), lpdu, chunk, 1, 0, 0);
    NoChunkLeft(o, SendChunk(o, InstallLimit(c), lpdu, true).chan, lpdu, chunk, 1, |lpdu|);
  }

  /** A session send of one frame to a silent line writes it once and then again as
      often as the retry count allows. */
  lemma SilentSend(o: ChannelOptions, c: Chan, apdu: bytes)
    requires o.hdlcUseSession && Belongs(o, c) && AddressesAreValid(o) && Silent(c)
    requires o.maximumApduSize == 0 || |apdu| <= o.maximumApduSize
    requires o.hdlcMaxInformationFieldLengthTransmit == 0 || 3 + |apdu| <= o.hdlcMaxInformationFieldLengthTransmit
    requires 3 + |apdu| + Piece(o, apdu) - 1 < 0x1_0000_0000_0000_0000
    requires c.session.state == Connected && Outstanding(c.session) < SendWindow(o)
    requires 3 + |apdu| <= c.session.options.limits.maximumInformationFieldSize && 14 + |apdu| <= 0x7FF
    ensures var f := Greeting(o, Information(c.session.vs, c.session.vr, true)).(
                       information := HeaderBytes(o.hdlcDirection) + apdu);
            var r := SendApdu(o, c, View(apdu));
            && r.status == WouldBlock
            && r.chan.wire.writes == c.wire.writes + HdlcRetry.Copies(FrameBytes(f), o.hdlcRetryCount + 1)
  {
    hide WriteAndAwait, FrameBytes, Belongs, SendApdu;
    SessionOf(o, c);
    AddressesOf(o, c.session);
    OnePiece(o, c, apdu);
    var built := BuildSessionInformationFrame(InstallLimit(c), HeaderBytes(o.hdlcDirection) + apdu, false, true);
    SilentExchange(o, built.chan, built.frameBytes);
  }

  /** With the window full a send takes exactly one frame first: on a silent line it
      fails there and writes nothing, a frame that is refused fails it, and a
      receipt for everything lets the frame go out, at least once. */
  lemma FullWindowTakesOneFrame(o: ChannelOptions, c: Chan, apdu: bytes) returns (k: nat)
    requires o.hdlcUseSession && Belongs(o, c) && AddressesAreValid(o)
    requires c.session.state == Connected && Outstanding(c.session) >= SendWindow(o)
    requires o.maximumApduSize == 0 || |apdu| <= o.maximumApduSize
    requires o.hdlcMaxInformationFieldLengthTransmit == 0 || 3 + |apdu| <= o.hdlcMaxInformationFieldLengthTransmit
    requires 3 + |apdu| + Piece(o, apdu) - 1 < 0x1_0000_0000_0000_0000
    requires 3 + |apdu| <= c.session.options.limits.maximumInformationFieldSize && 14 + |apdu| <= 0x7FF
    ensures var r := SendApdu(o, c, View(apdu));
            && (Silent(c) ==> r.status == WouldBlock && r.chan.wire.writes == c.wire.writes)
            && (c.pendingFrames != [] && c.session.ReceiveFrame(c.pendingFrames[0]).status != HdlcOk ==>
                  r.status in {InvalidFrame, InvalidAddress} && r.chan.wire.writes == c.wire.writes
                  && r.chan.pendingFrames == c.pendingFrames[1..])
    ensures c.pendingFrames != []
            && c.pendingFrames[0] == Frame(false, c.session.Local(), c.session.Remote(),
                                           ReceiveReady(c.session.vs, true), []) ==>
              var f := Greeting(o, Information(c.session.vs, c.session.vr, true)).(
                         information := HeaderBytes(o.hdlcDirection) + apdu);
              && 1 <= k <= o.hdlcRetryCount + 1
              && SendApdu(o, c, View(apdu)).chan.wire.writes == c.wire.writes + HdlcRetry.Copies(FrameBytes(f), k)
  {
    hide FrameBytes, Belongs, Pull, WriteAndAwait, SendApdu, HeaderBytes;
    k := 0;
    SessionOf(o, c);
    AddressesOf(o, c.session);
    OnePiece(o, c, apdu);
    var d := InstallLimit(c);
    if Silent(c) {
      ExhaustedBlocks(Note(d, Polled));
    } else if c.pendingFrames != [] {
      var heard := ReceiveSessionControlFrame(d);
      HdlcSetup.RefusalIsFinal(c.session, c.pendingFrames[0]);
      var receipt := Frame(false, c.session.Local(), c.session.Remote(), ReceiveReady(c.session.vs, true), []);
      if c.pendingFrames[0] == receipt {
        ThreeMore(o, apdu);
        var built := BuildSessionInformationFrame(heard.chan, HeaderBytes(o.hdlcDirection) + apdu, false, true);
        k := HdlcRetry.FrameStaysInBudget(o, built.chan, built.frameBytes);
      }
    }
  }

  lemma ThreeMore(o: ChannelOptions, apdu: bytes)
    ensures |HeaderBytes(o.hdlcDirection) + apdu| == 3 + |apdu|
  {}

  lemma ExhaustedBlocks(c: Chan)
    requires c.wire.open && c.wire.script == []
    ensures Pull(c) == FrameReply(WouldBlock, None, c)
  {
    hide HdlcDecoder.Feed;
  }

  /** A field too large for the frame codec is refused before it is written. */
  lemma TooLargeAFieldIsRefused(o: ChannelOptions, c: Chan, apdu: bytes)
    requires o.hdlcUseSession && Belongs(o, c) && AddressesAreValid(o)
    requires c.session.state == Connected && Outstanding(c.session) < SendWindow(o)
    requires o.maximumApduSize == 0 || |apdu| <= o.maximumApduSize
    requires o.hdlcMaxInformationFieldLengthTransmit == 0 || 3 + |apdu| <= o.hdlcMaxInformationFieldLengthTransmit
    requires 3 + |apdu| + Piece(o, apdu) - 1 < 0x1_0000_0000_0000_0000
    requires 3 + |apdu| > c.session.options.limits.maximumInformationFieldSize || 14 + |apdu| > 0x7FF
    ensures var r := SendApdu(o, c, View(apdu)); r.status == PayloadTooLarge && r.chan.wire == c.wire
  {
    hide WriteAndAwait, FrameBytes, Belongs, SendApdu;
    SessionOf(o, c);
    AddressesOf(o, c.session);
    OnePiece(o, c, apdu);
  }

  // ---------------------------------------------------------------------
  // Receiving
  // ---------------------------------------------------------------------

  predicate HasHeader(information: bytes) {
    |information| >= 3 && information[0] == 0xE6 && information[1] in {0xE6, 0xE7} && information[2] == 0x00
  }

  predicate TooLong(o: ChannelOptions, information: bytes) {
    o.maximumApduSize != 0 && |information| > 3 + o.maximumApduSize
  }

  /** `d` is `c` with the next frame gone, and the line flowing on. */
  predicate NextIsGone(c: Chan, d: Chan) {
    Flowing(d) && Upcoming(c) != [] && Upcoming(d) == Upcoming(c)[1..]
  }

  /** Also, no APDU is pending, the session did not move and nothing was written. */
  predicate OnlyNextIsGone(c: Chan, d: Chan) {
    NextIsGone(c, d) && d.pendingApdus == [] && d.session == c.session && d.wire.writes == c.wire.writes
  }

  lemma QueueOutcome(o: ChannelOptions, c: Chan, f: Frame)
    ensures var r := DecodeCompleteInformation(o, c, f);
            if |f.information| < 3 then r == Reply(NeedMoreData, c)
            else if !HasHeader(f.information) then r == Reply(InvalidFrame, c)
            else if TooLong(o, f.information) then r == Reply(PayloadTooLarge, c)
            else
              && r.status == Ok
              && r.chan == c.(pendingApdus := c.pendingApdus + [f.information[3..]], log := r.chan.log)
  {}

  /** Receiving without a session, case by case on the next frame of a flowing line.
      Every case takes that frame and no other, except that a field shorter than
      the header is passed over. */
  lemma PlainReceiveOutcome(o: ChannelOptions, c: Chan) returns (passed: Chan)
    requires !o.hdlcUseSession && Flowing(c) && c.pendingApdus == [] && Upcoming(c) != []
    ensures var f := Upcoming(c)[0];
            var r := ReceiveApdu(o, c);
            if !f.segmented && |f.information| < 3 then
              OnlyNextIsGone(c, passed) && r == ReceiveApdu(o, passed)
            else
              && OnlyNextIsGone(c, r.chan)
              && if f.segmented then r.status == UnsupportedFeature
                 else if !HasHeader(f.information) then r.status == InvalidFrame
                 else if TooLong(o, f.information) then r.status == PayloadTooLarge
                 else r.status == Ok && r.apdu == f.information[3..]
  {
    hide ReceiveDecodedFrame, DecodeCompleteInformation, Decode, NoNoise, Dry;
    FrameArrives(c);
    FramesComeInOrder(c);
    var received := ReceiveDecodedFrame(c);
    var f := received.frame.value;
    assert f == Upcoming(c)[0] && Upcoming(received.chan) == Upcoming(c)[1..];
    QueueOutcome(o, received.chan, f);
    DecodingKeepsFlowing(o, received.chan, f);
    passed := DecodeFrameToPendingApdu(o, received.chan, f).chan;
    assert Upcoming(passed) == Upcoming(received.chan);
  }

  /** The receipt for a field: the next expected number, with poll set. */
  function ReceiptBytes(s: Session): bytes {
    FrameBytes(Frame(false, s.Remote(), s.Local(), ReceiveReady((s.vr + 1) % 8, true), []))
  }

  /** What decoding a frame with a session does, when no APDU is pending. */
  lemma SessionDecodeOutcome(o: ChannelOptions, c: Chan, f: Frame)
    requires o.hdlcUseSession && c.pendingApdus == [] && c.wire.open
    ensures var p := c.reassembler.PushFrame(f);
            var g := p.completed;
            var heard := c.session.ReceiveFrame(g);
            var r := DecodeFrameToPendingApdu(o, c, f);
            if p.status == HdlcSegmentationIncomplete then
              r.status == NeedMoreData && r.chan == c.(reassembler := p.reassembler, log := r.chan.log)
            else if p.status != HdlcOk then
              && r.status == (if p.status == HdlcSegmentationOverflow then PayloadTooLarge else InvalidFrame)
              && r.chan == c.(reassembler := p.reassembler.(partial := None), log := r.chan.log)
            else if heard.status != HdlcOk then
              && r.status == (if g.destination != c.session.Local() || g.source != c.session.Remote()
                              then InvalidAddress else InvalidFrame)
              && r.chan == c.(reassembler := p.reassembler, log := r.chan.log)
            else if !g.control.Information? || |g.information| < 3 then
              && (r.status == Ok || r.status == NeedMoreData)
              && r.chan == c.(reassembler := p.reassembler, session := heard.session, log := r.chan.log)
            else if !HasHeader(g.information) || TooLong(o, g.information) then
              && r.status == (if HasHeader(g.information) then PayloadTooLarge else InvalidFrame)
              && r.chan == c.(reassembler := p.reassembler, session := heard.session, log := r.chan.log)
            else
              && r.status == NextWrite(c.wire) && r.chan.session == heard.session
              && r.chan.pendingApdus == [g.information[3..]]
              && r.chan.wire.writes == c.wire.writes + [ReceiptBytes(c.session)]
  {
    hide DecodeCompleteInformation, Reassembler.PushFrame, FrameBytes, Session.ReceiveFrame;
    VerdictsOf(c.session, c.reassembler, f);
    var p := c.reassembler.PushFrame(f);
    var heard := Hear(Note(c, Assembled(f, p.status)).(reassembler := p.reassembler), p.completed);
    QueueOutcome(o, heard.chan, p.completed);
    if p.status == HdlcOk && heard.status == Ok && p.hasCompleted {
      AcceptedFieldIsAnswered(heard.chan, c.session, DecodeCompleteInformation(o, heard.chan, p.completed).chan);
    }
  }

  lemma AcceptedFieldIsAnswered(heard: Chan, before: Session, c: Chan)
    requires c == heard.(pendingApdus := c.pendingApdus, log := c.log) && c.session.state == Connected
    requires c.session.vr == (before.vr + 1) % 8 && c.session.options == before.options
    requires c.session.Local() == before.Local() && c.session.Remote() == before.Remote()
    ensures var r := SendSessionReceiveReady(c, true);
            && r.status == NextWrite(c.wire)
            && r.chan == c.(wire := r.chan.wire, log := r.chan.log)
            && r.chan.wire.writes == c.wire.writes + [ReceiptBytes(before)]
  {
    hide FrameBytes;
  }

  /** Receiving with a session: what the reassembler refuses, what the session
      refuses, what either takes in silence, and what a whole field gives. A
      receipt that cannot be written fails the call and keeps the APDU. */
  lemma SessionReceiveOutcome(o: ChannelOptions, c: Chan) returns (passed: Chan)
    requires o.hdlcUseSession && Flowing(c) && c.pendingApdus == [] && Upcoming(c) != []
    ensures var p := c.reassembler.PushFrame(Upcoming(c)[0]);
            var g := p.completed;
            var heard := c.session.ReceiveFrame(g);
            var r := ReceiveApdu(o, c);
            if p.status == HdlcSegmentationIncomplete then
              && OnlyNextIsGone(c, passed) && passed.reassembler == p.reassembler && r == ReceiveApdu(o, passed)
            else if p.status != HdlcOk then
              && OnlyNextIsGone(c, r.chan) && r.chan.reassembler.partial == None
              && r.status == (if p.status == HdlcSegmentationOverflow then PayloadTooLarge else InvalidFrame)
            else if g.destination != c.session.Local() || g.source != c.session.Remote() then
              r.status == InvalidAddress && OnlyNextIsGone(c, r.chan)
            else if heard.status != HdlcOk then
              r.status == InvalidFrame && OnlyNextIsGone(c, r.chan)
            else if !g.control.Information? || |g.information| < 3 then
              && NextIsGone(c, passed) && passed.session == heard.session && passed.wire.writes == c.wire.writes
              && passed.pendingApdus == [] && r == ReceiveApdu(o, passed)
            else if !HasHeader(g.information) || TooLong(o, g.information) then
              && r.status == (if HasHeader(g.information) then PayloadTooLarge else InvalidFrame)
              && NextIsGone(c, r.chan) && r.chan.session == heard.session && r.chan.wire.writes == c.wire.writes
              && r.chan.pendingApdus == []
            else
              && NextIsGone(c, r.chan) && r.chan.session == heard.session
              && r.chan.wire.writes == c.wire.writes + [ReceiptBytes(c.session)]
              && r.status == NextWrite(c.wire)
              && (if r.status == Ok then r.apdu == g.information[3..] && r.chan.pendingApdus == []
                  else r.chan.pendingApdus == [g.information[3..]])
  {
    hide ReceiveDecodedFrame, DecodeFrameToPendingApdu, Reassembler.PushFrame, FrameBytes, Session.ReceiveFrame;
    hide Flowing, Upcoming, NextIsGone, HasHeader, TooLong;
    var f := NextIsDecoded(o, c);
    VerdictsOf(c.session, c.reassembler, f);
    SessionDecodeOutcome(o, ReceiveDecodedFrame(c).chan, f);
    passed := DecodeFrameToPendingApdu(o, ReceiveDecodedFrame(c).chan, f).chan;
  }

  /** The next frame is received and decoded, and the line flows on. */
  lemma NextIsDecoded(o: ChannelOptions, c: Chan) returns (f: Frame)
    requires Flowing(c) && c.pendingApdus == [] && Upcoming(c) != []
    ensures f == Upcoming(c)[0]
    ensures var received := ReceiveDecodedFrame(c);
            var d := DecodeFrameToPendingApdu(o, received.chan, f).chan;
            && received.status == Ok && received.frame == Some(f) && OnlyReceives(c, received.chan)
            && c.wire.open && c.wire.writes == received.chan.wire.writes
            && NextIsGone(c, d) && (d.pendingApdus != [] ==> NextIsGone(c, TakeApdu(d)))
  {
    hide ReceiveDecodedFrame, DecodeFrameToPendingApdu, Decode, NoNoise, Dry, CleanLine;
    FrameArrives(c);
    FramesComeInOrder(c);
    var received := ReceiveDecodedFrame(c);
    f := received.frame.value;
    assert f == Upcoming(c)[0] && Upcoming(received.chan) == Upcoming(c)[1..];
    DecodingKeepsFlowing(o, received.chan, f);
    DecodingReadsNothing(o, received.chan, f);
    var d := DecodeFrameToPendingApdu(o, received.chan, f).chan;
    assert Upcoming(d) == Upcoming(received.chan);
    if d.pendingApdus != [] {
      TakingKeepsTheLine(d);
    }
  }

  lemma TakingKeepsTheLine(c: Chan)
    requires Flowing(c) && c.pendingApdus != []
    ensures Flowing(TakeApdu(c)) && Upcoming(TakeApdu(c)) == Upcoming(c)
  {
    hide Decode, NoNoise, Dry;
  }

  /** The verdicts of the reassembler and the session on a frame. */
  lemma VerdictsOf(s: Session, r: Reassembler, f: Frame)
    ensures var p := r.PushFrame(f);
            var g := p.completed;
            var heard := s.ReceiveFrame(g);
            && p.status in {HdlcOk, HdlcSegmentationIncomplete, HdlcSegmentationOverflow, HdlcSegmentationError}
            && (p.status == HdlcOk ==> (p.hasCompleted <==> g.control.Information?))
            && (heard.status != HdlcOk ==> heard.session == s)
            && (g.destination != s.Local() || g.source != s.Remote() ==> heard.status == HdlcInvalidAddress)
            && (g.destination == s.Local() && g.source == s.Remote() ==>
                  heard.status in {HdlcOk, HdlcInvalidFrameType, HdlcInvalidControlField})
            && (heard.status == HdlcOk && g.control.Information? ==>
                  && heard.session.state == Connected && heard.session.vr == (s.vr + 1) % 8
                  && heard.session.Local() == s.Local() && heard.session.Remote() == s.Remote()
                  && heard.session.options == s.options)
  {}

  /** A receive that has to read, and the read fails or brings nothing: the call
      reports it, and nothing else changes. A buffer of size zero is refused. */
  lemma EmptyReadIsReported(o: ChannelOptions, c: Chan)
    requires c.pendingApdus == [] && c.pendingFrames == []
    ensures c.capacity == 0 ==> ReceiveApdu(o, c) == ApduReply(InvalidArgument, [], c)
    ensures var read := c.wire.ReadSome(c.capacity);
            c.capacity > 0 && read.data == [] ==>
              ReceiveApdu(o, c) == ApduReply(if read.status == TransportOk then NeedMoreData
                                             else MapTransportStatus(read.status), [], c.(wire := read.wire))
  {
    hide HdlcDecoder.Feed, Wire.ReadSome;
    var read := c.wire.ReadSome(c.capacity);
    if c.capacity > 0 && read.data == [] && read.status != TransportOk {
      assert MapTransportStatus(read.status) != Ok;
    }
  }

  /** Bytes that cannot be decoded: the call reports the codec's status, and the
      decoder starts over. Bytes that hold noise only are as if nothing had come. */
  lemma MalformedInputIsReported(o: ChannelOptions, c: Chan)
    requires c.pendingApdus == [] && c.pendingFrames == [] && c.capacity > 0
    ensures var read := c.wire.ReadSome(c.capacity);
            var pushed := c.decoder.Feed(read.data);
            read.status == TransportOk && read.data != [] && pushed.verdict.Failed? ==>
              ReceiveApdu(o, c) == ApduReply(MapHdlcStatus(pushed.verdict.error), [],
                                             c.(wire := read.wire, decoder := HdlcDecoder(c.decoder.limits, [])))
    ensures var read := c.wire.ReadSome(c.capacity);
            var pushed := c.decoder.Feed(read.data);
            read.status == TransportOk && read.data != [] && pushed.verdict.Done? && pushed.frames == [] ==>
              ReceiveApdu(o, c) == ApduReply(NeedMoreData, [],
                                             c.(wire := read.wire, decoder := c.decoder.(buffer := pushed.buffer)))
  {
    hide HdlcDecoder.Feed, Wire.ReadSome;
    var read := c.wire.ReadSome(c.capacity);
    FailuresAreErrors(c.decoder, read.data);
  }

  lemma FailuresAreErrors(d: HdlcDecoder, input: bytes)
    ensures var verdict := d.Feed(input).verdict;
            verdict.Failed? ==> MapHdlcStatus(verdict.error) != Ok && MapHdlcStatus(verdict.error) != NeedMoreData
  {
    ErrorsAreErrors(d.limits, d.buffer + input);
  }

  /** An output buffer that is not valid is refused before anything is read; one
      that is too small keeps the APDU for the next call. */
  lemma BufferIsChecked(o: ChannelOptions, c: Chan, size: nat)
    ensures ReceiveApduInto(o, c, false, size) == ApduReply(InvalidArgument, [], c)
    ensures c.pendingApdus != [] && size < |c.pendingApdus[0]| ==>
              ReceiveApduInto(o, c, true, size) == ApduReply(OutputBufferTooSmall, [], c)
    ensures c.pendingApdus != [] && |c.pendingApdus[0]| <= size ==>
              var r := ReceiveApduInto(o, c, true, size);
              && r.status == Ok && r.apdu == c.pendingApdus[0]
              && r.chan == c.(pendingApdus := c.pendingApdus[1..], log := r.chan.log)
  {}
}
