/** The discipline of the link over whole runs: no information frame without a
    handshake, consecutive send numbers, and a respected window. */
module HdlcLink {
  import opened Basics
  import opened Statuses
  import opened HdlcCodec
  import opened HdlcSession
  import opened ProfileTypes
  import opened Transport
  import opened HdlcChannelSpec
  import HdlcDelivery
  import LlcCodec

  // ---------------------------------------------------------------------
  // An observer of the link, which sees only what is written and accepted
  // ---------------------------------------------------------------------

  datatype Phase = Down | Calling | Asked | Up | Hanging

  /** `next`: the number the next new I-frame must carry; `last`: the bytes of
      the latest I-frame; `unacked`: how many are unacknowledged. */
  datatype Link = Link(phase: Phase, next: Mod8, last: bytes, unacked: nat, legal: bool)

  const ANY_SIZE: CodecLimits := CodecLimits(MAXIMUM_LENGTH, 0)

  function FrameIn(b: bytes): HdlcResult<Frame> {
    DecodeFrame(ANY_SIZE, b)
  }

  function Broken(l: Link): Link {
    l.(legal := false)
  }

  function Established(l: Link): Link {
    Link(Up, 0, [], 0, l.legal)
  }

  /** A write must be one whole frame. An I-frame needs an open link, and either
      repeats the latest one or carries the next number inside the window. */
  function ObserveSent(window: nat, l: Link, b: bytes): Link {
    match FrameIn(b)
    case Failure(_) => Broken(l)
    case Success(f) =>
      match f.control
      case SetNormalResponse => if l.phase == Down || l.phase == Calling then l.(phase := Calling) else Broken(l)
      case UnnumberedAck => if l.phase == Asked then Established(l) else Broken(l)
      case Disconnect => if l.phase == Up || l.phase == Hanging then l.(phase := Hanging) else Broken(l)
      case ReceiveReady(_, _) => if l.phase == Up then l else Broken(l)
      case Information(ns, _, _) =>
        if l.phase != Up then Broken(l)
        else if b == l.last then l
        else if ns == l.next && l.unacked < window then
          l.(next := Increment(l.next), last := b, unacked := l.unacked + 1)
        else Broken(l)
  }

  function ObserveAck(l: Link, nr: Mod8): Link {
    if l.phase == Up && Distance(nr, l.next) <= l.unacked then l.(unacked := Distance(nr, l.next)) else Broken(l)
  }

  function ObserveAccepted(l: Link, f: Frame): Link {
    match f.control
    case SetNormalResponse => l.(phase := Asked)
    case UnnumberedAck =>
      if l.phase == Calling then Established(l) else if l.phase == Hanging then l.(phase := Down) else Broken(l)
    case Disconnect => if l.phase == Up then l.(phase := Down) else Broken(l)
    case ReceiveReady(nr, _) => ObserveAck(l, nr)
    case Information(_, nr, _) => ObserveAck(l, nr)
  }

  function Observe(window: nat, l: Link, e: Event): Link {
    match e
    case Sent(b) => ObserveSent(window, l, b)
    case Accepted(f) => ObserveAccepted(l, f)
    case Renewed => Link(Down, 0, [], 0, l.legal)
    case _ => l
  }

  function Watch(window: nat, log: seq<Event>): Link {
    if log == [] then Link(Down, 0, [], 0, true)
    else Observe(window, Watch(window, log[..|log| - 1]), log[|log| - 1])
  }

  lemma WatchOneMore(window: nat, log: seq<Event>, e: Event)
    ensures Watch(window, log + [e]) == Observe(window, Watch(window, log), e)
  {
    assert (log + [e])[..|log + [e]| - 1] == log;
  }

  lemma WatchTwoMore(window: nat, log: seq<Event>, e: Event, f: Event)
    ensures Watch(window, log + [e, f]) == Observe(window, Observe(window, Watch(window, log), e), f)
  {
    WatchOneMore(window, log, e);
    WatchOneMore(window, log + [e], f);
    assert log + [e, f] == log + [e] + [f];
  }

  // ---------------------------------------------------------------------
  // The session and the observer agree
  // ---------------------------------------------------------------------

  function OptionsOf(o: ChannelOptions): SessionOptions {
    match MakeHdlcSessionOptions(o)
    case Success(made) => made
    case Failure(_) => DefaultSessionOptions(o)
  }

  function WindowOf(o: ChannelOptions): nat {
    EffectiveWindow(OptionsOf(o).negotiation.windowTransmit)
  }

  function PhaseOf(s: LinkState): Phase {
    match s
    case Disconnected => Down
    case Connecting => Calling
    case ConnectRequested => Asked
    case Connected => Up
    case Disconnecting => Hanging
  }

  /** The latest I-frame carries the number before the next one. */
  predicate Latest(l: Link) {
    l.last == [] ||
    match FrameIn(l.last)
    case Failure(_) => false
    case Success(f) => f.control.Information? && Increment(f.control.ns) == l.next
  }

  predicate Mirrors(l: Link, s: Session) {
    && l.legal
    && l.phase == PhaseOf(s.state)
    && (l.phase == Up ==> l.next == s.vs && l.unacked == s.Unacknowledged() && Latest(l))
  }

  function Seen(o: ChannelOptions, c: Chan): Link {
    Watch(WindowOf(o), c.log)
  }

  predicate Agrees(o: ChannelOptions, c: Chan) {
    c.session.options == OptionsOf(o) && Mirrors(Seen(o, c), c.session)
  }

  /** Writing `b` once more is not news to the observer. */
  predicate Resendable(o: ChannelOptions, c: Chan, b: bytes) {
    ObserveSent(WindowOf(o), Seen(o, c), b) == Seen(o, c)
  }

  lemma AcknowledgedDistance(va: Mod8, nr: Mod8, vs: Mod8)
    requires Distance(va, nr) <= Distance(va, vs)
    ensures Distance(nr, vs) == Distance(va, vs) - Distance(va, nr)
  {}

  lemma AcceptanceIsLegal(l: Link, s: Session, f: Frame)
    requires Mirrors(l, s)
    ensures var heard := s.ReceiveFrame(f);
            && heard.session.options == s.options
            && (if heard.status == HdlcOk then Mirrors(ObserveAccepted(l, f), heard.session) else heard.session == s)
  {
    hide FrameIn;
    if f.control.Information? && s.AcknowledgesSent(f.control.nr) {
      AcknowledgedDistance(s.va, f.control.nr, s.vs);
    } else if f.control.ReceiveReady? && s.AcknowledgesSent(f.control.nr) {
      AcknowledgedDistance(s.va, f.control.nr, s.vs);
    }
  }

  lemma HearingAgrees(o: ChannelOptions, c: Chan, f: Frame)
    requires Agrees(o, c)
    ensures var r := Hear(c, f);
            && Agrees(o, r.chan) && r.chan.limits == c.limits
            && (r.status != Ok ==> Seen(o, r.chan) == Seen(o, c) && r.chan.session == c.session)
  {
    hide Mirrors, Session.ReceiveFrame, ObserveAccepted, Watch;
    WatchOneMore(WindowOf(o), c.log, Accepted(f));
    AcceptanceIsLegal(Seen(o, c), c.session, f);
  }

  /** Reading and queueing frames is invisible to the observer. */
  lemma {:induction false} PullIsUnseen(o: ChannelOptions, c: Chan)
    ensures var d := Pull(c).chan; Seen(o, d) == Seen(o, c) && d.session == c.session && d.limits == c.limits
    decreases |c.wire.script|
  {
    hide HdlcDecoder.Feed, Wire.ReadSome, Watch;
    var read := c.wire.ReadSome(c.capacity);
    var pushed := c.decoder.Feed(read.data);
    if pushed.frames != [] {
      WatchTwoMore(WindowOf(o), c.log, Decoded(pushed.frames), Taken(pushed.frames[0]));
    }
    if read.status == TransportOk && read.data != [] && MapHdlcStatus(VerdictStatus(pushed.verdict)) == NeedMoreData {
      PullIsUnseen(o, c.(wire := read.wire, decoder := c.decoder.(buffer := pushed.buffer)));
    }
  }

  lemma ReceivingIsUnseen(o: ChannelOptions, c: Chan)
    ensures var d := ReceiveDecodedFrame(c).chan;
            Seen(o, d) == Seen(o, c) && d.session == c.session && d.limits == c.limits
  {
    hide Pull, Watch;
    if c.pendingFrames != [] {
      WatchOneMore(WindowOf(o), c.log, Taken(c.pendingFrames[0]));
    }
    PullIsUnseen(o, c);
  }

  lemma WaitingAgrees(o: ChannelOptions, c: Chan)
    requires Agrees(o, c)
    ensures var r := ReceiveSessionControlFrame(c);
            && Agrees(o, r.chan) && r.chan.limits == c.limits
            && (r.status != Ok ==> Seen(o, r.chan) == Seen(o, c) && r.chan.session == c.session)
  {
    hide ReceiveDecodedFrame, Hear, Watch;
    WatchOneMore(WindowOf(o), c.log, Polled);
    ReceivingIsUnseen(o, Note(c, Polled));
    var r := ReceiveDecodedFrame(Note(c, Polled));
    if r.status == Ok {
      HearingAgrees(o, r.chan, r.frame.value);
    }
  }

  lemma ResendingAgrees(o: ChannelOptions, c: Chan, b: bytes)
    requires Agrees(o, c) && Resendable(o, c, b)
    ensures var d := WriteFrameBytes(c, b).chan;
            Agrees(o, d) && Resendable(o, d, b) && d.limits == c.limits
  {
    hide ObserveSent;
    WatchOneMore(WindowOf(o), c.log, Sent(b));
  }

  lemma {:induction false} RetryingAgrees(o: ChannelOptions, c: Chan, b: bytes, attempt: nat)
    requires attempt <= o.hdlcRetryCount && Agrees(o, c) && Resendable(o, c, b)
    ensures var d := AwaitControlFrame(o, c, b, attempt).chan; Agrees(o, d) && d.limits == c.limits
    decreases o.hdlcRetryCount - attempt
  {
    hide ReceiveSessionControlFrame, WriteFrameBytes, ObserveSent, Watch, Mirrors;
    WaitingAgrees(o, c);
    var r := ReceiveSessionControlFrame(c);
    if r.status != Ok && IsRetriable(r.status) && attempt < o.hdlcRetryCount {
      var slept := SleepBeforeRetry(o, r.chan);
      assert Agrees(o, slept.chan) && Resendable(o, slept.chan, b);
      ResendingAgrees(o, slept.chan, b);
      var written := WriteFrameBytes(slept.chan, b);
      if slept.status == Ok && written.status == Ok {
        RetryingAgrees(o, written.chan, b, attempt + 1);
      }
    }
  }

  /** A new frame, built by the session and written at once. */
  lemma SendingAgrees(o: ChannelOptions, c: Chan, session: Session, b: bytes)
    requires c.session.options == OptionsOf(o) == session.options
    requires var l := ObserveSent(WindowOf(o), Seen(o, c), b);
             Mirrors(l, session) && ObserveSent(WindowOf(o), l, b) == l
    ensures var d := WriteAndAwait(o, c.(session := session), b).chan; Agrees(o, d) && d.limits == c.limits
    ensures var d := WriteFrameBytes(c.(session := session), b).chan; Agrees(o, d) && d.limits == c.limits
  {
    hide AwaitControlFrame, ObserveSent, Mirrors;
    WatchOneMore(WindowOf(o), c.log, Sent(b));
    var written := WriteFrameBytes(c.(session := session), b);
    assert Agrees(o, written.chan) && Resendable(o, written.chan, b);
    if written.status == Ok {
      RetryingAgrees(o, written.chan, b, 0);
    }
  }

  // ---------------------------------------------------------------------
  // Each frame the channel builds is legal
  // ---------------------------------------------------------------------

  lemma FrameInEncoded(f: Frame)
    requires Encodable(f)
    ensures FrameIn(FrameBytes(f)) == Success(f)
  {
    DecodeOfEncoded(ANY_SIZE, f);
  }

  lemma ConnectRequestIsLegal(window: nat, l: Link, s: Session)
    requires Mirrors(l, s) && s.BuildConnectRequest().status == HdlcOk
    ensures var b := s.BuildConnectRequest();
            var m := ObserveSent(window, l, b.frameBytes);
            Mirrors(m, b.session) && ObserveSent(window, m, b.frameBytes) == m
  {
    FrameInEncoded(s.Outgoing(SetNormalResponse, []));
  }

  lemma ConnectResponseIsLegal(window: nat, l: Link, s: Session)
    requires Mirrors(l, s) && s.BuildConnectResponse().status == HdlcOk
    ensures var b := s.BuildConnectResponse(); Mirrors(ObserveSent(window, l, b.frameBytes), b.session)
  {
    FrameInEncoded(s.Outgoing(UnnumberedAck, []));
  }

  lemma DisconnectRequestIsLegal(window: nat, l: Link, s: Session)
    requires Mirrors(l, s) && s.BuildDisconnectRequest().status == HdlcOk
    ensures var b := s.BuildDisconnectRequest();
            var m := ObserveSent(window, l, b.frameBytes);
            Mirrors(m, b.session) && ObserveSent(window, m, b.frameBytes) == m
  {
    FrameInEncoded(s.Outgoing(Disconnect, []));
  }

  lemma ReceiveReadyIsLegal(window: nat, l: Link, s: Session)
    requires Mirrors(l, s) && s.BuildReceiveReadyFrame(true).status == HdlcOk
    ensures var b := s.BuildReceiveReadyFrame(true);
            b.session == s && ObserveSent(window, l, b.frameBytes) == l
  {
    FrameInEncoded(s.Outgoing(ReceiveReady(s.vr, true), []));
  }

  /** A new I-frame differs from the latest one, carries the next number and
      stays inside the window. */
  lemma InformationIsLegal(l: Link, s: Session, f: Frame)
    requires Mirrors(l, s) && s.CanSendInformationFrame() && Encodable(f)
    requires f.control.Information? && f.control.ns == s.vs
    ensures var m := ObserveSent(s.Window(), l, FrameBytes(f));
            Mirrors(m, s.(vs := Increment(s.vs))) && ObserveSent(s.Window(), m, FrameBytes(f)) == m
  {
    FrameInEncoded(f);
    OneMoreUnacknowledged(s.va, s.vs);
  }

  lemma OneMoreUnacknowledged(va: Mod8, vs: Mod8)
    requires Distance(va, vs) < 7
    ensures Distance(va, Increment(vs)) == Distance(va, vs) + 1 && Increment(vs) != vs
  {}

  // ---------------------------------------------------------------------
  // Every call
  // ---------------------------------------------------------------------

  lemma ChunkAgrees(o: ChannelOptions, c: Chan, information: bytes, final: bool)
    requires Agrees(o, c) && (!final ==> |information| <= c.limits.maximumInformationFieldSize)
    ensures var d := SendChunk(o, c, information, final).chan;
            Agrees(o, d) && (SendChunk(o, c, information, final).status == Ok ==> d.limits == c.limits)
  {
    hide ReceiveSessionControlFrame, WriteAndAwait, Mirrors, Watch;
    WaitingAgrees(o, c);
    var ready := if c.session.CanSendInformationFrame() then Reply(Ok, c) else ReceiveSessionControlFrame(c);
    if ready.status == Ok {
      var r := ready.chan;
      HdlcDelivery.ReencodingOnlySetsTheBit(r, information, !final, final);
      var built := BuildSessionInformationFrame(r, information, !final, final);
      if built.status == Ok {
        InformationIsLegal(Seen(o, r), r.session, HdlcDelivery.SegmentFrame(r.session, information, !final, final));
        SendingAgrees(o, r, built.chan.session, built.frameBytes);
      } else {
        RefusedInformationChangesNothing(r, information, !final, final);
      }
    }
  }

  lemma RefusedInformationChangesNothing(c: Chan, information: bytes, segmented: bool, pollFinal: bool)
    requires segmented ==> |information| <= c.limits.maximumInformationFieldSize
    ensures var r := BuildSessionInformationFrame(c, information, segmented, pollFinal);
            r.status != Ok ==> r.chan == c
  {
    HdlcDelivery.ReencodingOnlySetsTheBit(c, information, segmented, pollFinal);
  }

  lemma {:induction false} ChunksAgree(
    o: ChannelOptions, c: Chan, lpdu: bytes, chunk: nat, count: nat, i: nat, offset: nat)
    requires Agrees(o, c) && i <= count && offset <= |lpdu|
    requires count <= 1 || chunk <= c.limits.maximumInformationFieldSize
    ensures Agrees(o, SendChunks(o, c, lpdu, chunk, count, i, offset).chan)
    decreases count - i
  {
    hide SendChunk, Agrees;
    if i < count {
      var size := CurrentSize(lpdu, chunk, offset);
      ChunkAgrees(o, c, lpdu[offset..offset + size], i + 1 == count);
      var r := SendChunk(o, c, lpdu[offset..offset + size], i + 1 == count);
      if r.status == Ok {
        ChunksAgree(o, r.chan, lpdu, chunk, count, i + 1, offset + size);
      }
    }
  }

  lemma SendAgrees(o: ChannelOptions, c: Chan, apdu: ByteView)
    requires o.hdlcUseSession && Agrees(o, c)
    ensures Agrees(o, SendApdu(o, c, apdu).chan)
  {
    hide SendChunks;
    var encoded := LlcCodec.EncodeLpdu(o.hdlcDirection, apdu.Bytes());
    if encoded.Success? && c.session.state == Connected {
      var lpdu := encoded.value;
      var chunk := ChunkSize(c, lpdu);
      HdlcDelivery.FrameCountIsExactUnlessItOverflows(|lpdu|, chunk);
      HdlcDelivery.FinalByCount(|lpdu|, chunk);
      ChunksAgree(o, InstallLimit(c), lpdu, chunk, FrameCount(|lpdu|, chunk), 0, 0);
    }
  }

  lemma EnsuringAgrees(o: ChannelOptions, c: Chan)
    requires Agrees(o, c)
    ensures Agrees(o, EnsureSession(o, c).chan)
  {
    WatchTwoMore(WindowOf(o), c.log, Flushed(c.pendingFrames), Renewed);
  }

  lemma ConnectAgrees(o: ChannelOptions, c: Chan)
    requires Agrees(o, c)
    ensures Agrees(o, ConnectDataLink(o, c).chan)
  {
    hide WriteAndAwait, EnsureSession, Mirrors, Watch;
    EnsuringAgrees(o, c);
    var r := EnsureSession(o, c).chan;
    var built := r.session.BuildConnectRequest();
    if built.status == HdlcOk {
      ConnectRequestIsLegal(WindowOf(o), Seen(o, r), r.session);
      SendingAgrees(o, r, built.session, built.frameBytes);
    }
  }

  lemma AcceptAgrees(o: ChannelOptions, c: Chan)
    requires Agrees(o, c)
    ensures Agrees(o, AcceptDataLink(o, c).chan)
  {
    hide WriteFrameBytes, EnsureSession, ReceiveSessionControlFrame, Mirrors, Watch;
    EnsuringAgrees(o, c);
    var e := EnsureSession(o, c).chan;
    WaitingAgrees(o, e);
    var r := ReceiveSessionControlFrame(e).chan;
    var built := r.session.BuildConnectResponse();
    if built.status == HdlcOk {
      ConnectResponseIsLegal(WindowOf(o), Seen(o, r), r.session);
      WritingAgrees(o, r, built.session, built.frameBytes);
    }
  }

  lemma WritingAgrees(o: ChannelOptions, c: Chan, session: Session, b: bytes)
    requires session.options == OptionsOf(o) && Mirrors(ObserveSent(WindowOf(o), Seen(o, c), b), session)
    ensures Agrees(o, WriteFrameBytes(c.(session := session), b).chan)
  {
    hide ObserveSent, Mirrors;
    WatchOneMore(WindowOf(o), c.log, Sent(b));
  }

  lemma DisconnectAgrees(o: ChannelOptions, c: Chan)
    requires Agrees(o, c)
    ensures Agrees(o, DisconnectDataLink(o, c).chan)
  {
    hide WriteAndAwait, Mirrors, Watch;
    var built := c.session.BuildDisconnectRequest();
    if built.status == HdlcOk {
      DisconnectRequestIsLegal(WindowOf(o), Seen(o, c), c.session);
      SendingAgrees(o, c, built.session, built.frameBytes);
    }
  }

  lemma QueueingAgrees(o: ChannelOptions, c: Chan, f: Frame)
    requires Agrees(o, c)
    ensures Agrees(o, DecodeCompleteInformation(o, c, f).chan)
  {
    hide Mirrors, Watch;
    var decoded := LlcCodec.DecodeLpdu(f.information);
    if decoded.Success? {
      WatchOneMore(WindowOf(o), c.log, Queued(decoded.value));
    }
  }

  lemma ReadyAgrees(o: ChannelOptions, c: Chan)
    requires Agrees(o, c)
    ensures Agrees(o, SendSessionReceiveReady(c, true).chan)
  {
    hide WriteFrameBytes, Mirrors, Watch;
    var built := c.session.BuildReceiveReadyFrame(true);
    if built.status == HdlcOk {
      ReceiveReadyIsLegal(WindowOf(o), Seen(o, c), c.session);
      WritingAgrees(o, c, built.session, built.frameBytes);
    }
  }

  lemma DecodingAgrees(o: ChannelOptions, c: Chan, f: Frame)
    requires o.hdlcUseSession && Agrees(o, c)
    ensures Agrees(o, DecodeFrameToPendingApdu(o, c, f).chan)
  {
    hide Hear, DecodeCompleteInformation, SendSessionReceiveReady, Mirrors, Watch;
    var joined := c.reassembler.PushFrame(f);
    var d := Note(c, Assembled(f, joined.status)).(reassembler := joined.reassembler);
    WatchOneMore(WindowOf(o), c.log, Assembled(f, joined.status));
    assert Agrees(o, d);
    HearingAgrees(o, d, joined.completed);
    var heard := Hear(d, joined.completed);
    QueueingAgrees(o, heard.chan, joined.completed);
    ReadyAgrees(o, DecodeCompleteInformation(o, heard.chan, joined.completed).chan);
  }

  lemma {:induction false} ReceivingAgrees(o: ChannelOptions, c: Chan)
    requires o.hdlcUseSession && Agrees(o, c)
    ensures Agrees(o, ReceiveNextApdu(o, c).chan)
    decreases |c.wire.script|, |c.pendingFrames|
  {
    hide ReceiveDecodedFrame, DecodeFrameToPendingApdu, Mirrors, Watch;
    ReceivingIsUnseen(o, c);
    var received := ReceiveDecodedFrame(c);
    if received.status == Ok {
      DecodingAgrees(o, received.chan, received.frame.value);
      var r := DecodeFrameToPendingApdu(o, received.chan, received.frame.value);
      if r.status == NeedMoreData || (r.status == Ok && r.chan.pendingApdus == []) {
        ReceivingAgrees(o, r.chan);
      }
    }
  }

  lemma ReceiveAgrees(o: ChannelOptions, c: Chan, valid: bool, size: nat)
    requires o.hdlcUseSession && Agrees(o, c)
    ensures Agrees(o, ReceiveApdu(o, c).chan) && Agrees(o, ReceiveApduInto(o, c, valid, size).chan)
  {
    hide ReceiveNextApdu, Mirrors, Watch;
    ReceivingAgrees(o, c);
    var r := Await(o, c).chan;
    if r.pendingApdus != [] {
      WatchOneMore(WindowOf(o), r.log, Returned(r.pendingApdus[0]));
    }
  }

  lemma CallAgrees(o: ChannelOptions, c: Chan, call: Call)
    requires o.hdlcUseSession && Agrees(o, c)
    ensures Agrees(o, Apply(o, c, call).chan)
  {
    hide Agrees, ConnectDataLink, AcceptDataLink, DisconnectDataLink, SendApdu, ReceiveApdu, ReceiveApduInto, Close;
    match call
    case CallOpen => OpeningAgrees(o, c);
    case CallClose => ClosingAgrees(o, c);
    case CallConnect => ConnectAgrees(o, c);
    case CallAccept => AcceptAgrees(o, c);
    case CallDisconnect => DisconnectAgrees(o, c);
    case CallSend(apdu) => SendAgrees(o, c, apdu);
    case CallReceive => ReceiveAgrees(o, c, true, 0);
    case CallReceiveInto(valid, size) => ReceiveAgrees(o, c, valid, size);
  }

  lemma OpeningAgrees(o: ChannelOptions, c: Chan)
    requires Agrees(o, c)
    ensures Agrees(o, Open(c).chan)
  {}

  lemma ClosingAgrees(o: ChannelOptions, c: Chan)
    requires Agrees(o, c)
    ensures Agrees(o, Close(c).chan)
  {
    WatchTwoMore(WindowOf(o), c.log, Flushed(c.pendingFrames), Dropped(c.pendingApdus));
  }

  lemma {:induction false} RunAgrees(o: ChannelOptions, c: Chan, calls: seq<Call>)
    requires o.hdlcUseSession && Agrees(o, c)
    ensures Agrees(o, Run(o, c, calls).chan)
    decreases |calls|
  {
    hide Agrees, Apply;
    if calls != [] {
      CallAgrees(o, c, calls[0]);
      RunAgrees(o, Apply(o, c, calls[0]).chan, calls[1..]);
    }
  }

  lemma InitiallyAgrees(o: ChannelOptions, wire: Wire, sleeps: seq<TransportStatus>)
    ensures Agrees(o, Initial(o, wire, sleeps))
  {}

  // ---------------------------------------------------------------------
  // What a legal log means, without the observer
  // ---------------------------------------------------------------------

  predicate Writes(e: Event, c: Control) {
    e.Sent? && FrameIn(e.frameBytes).Success? && FrameIn(e.frameBytes).value.control == c
  }

  predicate Hears(e: Event, c: Control) {
    e.Accepted? && e.frame.control == c
  }

  predicate WritesInformation(e: Event) {
    e.Sent? && FrameIn(e.frameBytes).Success? && FrameIn(e.frameBytes).value.control.Information?
  }

  function NumberIn(e: Event): Mod8
    requires WritesInformation(e)
  {
    FrameIn(e.frameBytes).value.control.ns
  }

  /** `e` and `f` are the two halves of a handshake, in either role. */
  predicate Handshake(e: Event, f: Event) {
    || (Writes(e, SetNormalResponse) && Hears(f, UnnumberedAck))
    || (Hears(e, SetNormalResponse) && Writes(f, UnnumberedAck))
  }

  /** A disconnect in either direction, a new handshake, or a new session. */
  predicate Ends(e: Event) {
    || e == Renewed
    || Writes(e, Disconnect) || Hears(e, Disconnect)
    || Writes(e, SetNormalResponse) || Hears(e, SetNormalResponse)
  }

  predicate NothingEnds(log: seq<Event>, from: nat) {
    forall m :: from < m < |log| ==> !Ends(log[m])
  }

  lemma LegalBefore(window: nat, log: seq<Event>, i: nat)
    requires Watch(window, log).legal && i <= |log|
    ensures Watch(window, log[..i]).legal
    decreases |log|
  {
    if i == |log| {
      assert log[..i] == log;
    } else {
      var front := log[..|log| - 1];
      LegalBefore(window, front, i);
      assert front[..i] == log[..i];
    }
  }

  /** An open link was opened by a handshake that nothing has ended since; a
      link being opened was asked for by its latest request. */
  lemma {:induction false} OpenLinkHasHandshake(window: nat, log: seq<Event>) returns (j: nat, k: nat)
    requires Watch(window, log).legal
    ensures var phase := Watch(window, log).phase;
            && (phase == Up ==> j < k < |log| && Handshake(log[j], log[k]) && NothingEnds(log, j))
            && (phase == Calling ==> j < |log| && Writes(log[j], SetNormalResponse) && NothingEnds(log, j))
            && (phase == Asked ==> j < |log| && Hears(log[j], SetNormalResponse) && NothingEnds(log, j))
    decreases |log|
  {
    hide FrameIn;
    j, k := 0, 0;
    if log != [] {
      var last := |log| - 1;
      LegalBefore(window, log, last);
      j, k := OpenLinkHasHandshake(window, log[..last]);
      if Ends(log[last]) {
        j := last;
      } else if Watch(window, log).phase == Up && Watch(window, log[..last]).phase != Up {
        k := last;
      }
    }
  }

  /** Handshake before data. Over every run of a channel in session mode, every
      information frame written is preceded by both halves of a handshake of the
      same session, with no disconnect in between; it repeats the latest
      information frame or carries the next number inside the window. */
  lemma HandshakeBeforeData(
    o: ChannelOptions, wire: Wire, sleeps: seq<TransportStatus>, calls: seq<Call>, i: nat) returns (j: nat, k: nat)
    requires o.hdlcUseSession
    requires i < |Run(o, Initial(o, wire, sleeps), calls).chan.log|
    requires WritesInformation(Run(o, Initial(o, wire, sleeps), calls).chan.log[i])
    ensures var log := Run(o, Initial(o, wire, sleeps), calls).chan.log;
            var before := Watch(WindowOf(o), log[..i]);
            && j < k < i && Handshake(log[j], log[k]) && NothingEnds(log[..i], j)
            && (log[i].frameBytes == before.last || (NumberIn(log[i]) == before.next && before.unacked < WindowOf(o)))
  {
    hide Run, FrameIn, Watch;
    InitiallyAgrees(o, wire, sleeps);
    RunAgrees(o, Initial(o, wire, sleeps), calls);
    var log := Run(o, Initial(o, wire, sleeps), calls).chan.log;
    LegalBefore(WindowOf(o), log, i);
    LegalBefore(WindowOf(o), log, i + 1);
    LegalInformation(WindowOf(o), log, i);
    j, k := OpenLinkHasHandshake(WindowOf(o), log[..i]);
  }

  /** While nothing ends an open link and no information frame is written, what
      the observer knows of the numbering stays the same. */
  lemma {:induction false} NumberingStays(window: nat, log: seq<Event>, a: nat, b: nat)
    requires a <= b <= |log| && Watch(window, log[..b]).legal && Watch(window, log[..a]).phase == Up
    requires forall m :: a <= m < b ==> !Ends(log[m]) && !WritesInformation(log[m])
    ensures var x, y := Watch(window, log[..a]), Watch(window, log[..b]);
            y.phase == Up && y.next == x.next && y.last == x.last
    decreases b
  {
    hide FrameIn;
    if a < b {
      assert log[..b] == log[..b - 1] + [log[b - 1]];
      WatchOneMore(window, log[..b - 1], log[b - 1]);
      NumberingStays(window, log, a, b - 1);
    }
  }

  lemma {:induction false} LatestHolds(window: nat, log: seq<Event>)
    ensures Latest(Watch(window, log))
    decreases |log|
  {
    hide FrameIn;
    if log != [] {
      LatestHolds(window, log[..|log| - 1]);
    }
  }

  /** A legal information frame is sent on an open link; it repeats the latest
      one or carries the next number inside the window, and becomes the latest. */
  lemma LegalInformation(window: nat, log: seq<Event>, i: nat)
    requires i < |log| && Watch(window, log[..i + 1]).legal && WritesInformation(log[i])
    ensures var before, after := Watch(window, log[..i]), Watch(window, log[..i + 1]);
            && before.phase == after.phase == Up && after.last == log[i].frameBytes
            && after.next == Increment(NumberIn(log[i]))
            && (log[i].frameBytes == before.last || (NumberIn(log[i]) == before.next && before.unacked < window))
  {
    hide FrameIn;
    assert log[..i + 1] == log[..i] + [log[i]];
    WatchOneMore(window, log[..i], log[i]);
    LatestHolds(window, log[..i + 1]);
    EmptyIsNoFrame();
  }

  lemma LinkOpens(window: nat, log: seq<Event>, i: nat)
    requires i < |log| && Watch(window, log[..i]).phase != Up && Watch(window, log[..i + 1]).phase == Up
    ensures Watch(window, log[..i + 1]).next == 0 && Watch(window, log[..i + 1]).last == []
  {
    hide FrameIn;
    assert log[..i + 1] == log[..i] + [log[i]];
    WatchOneMore(window, log[..i], log[i]);
  }

  lemma ConsecutiveInLog(window: nat, log: seq<Event>, a: nat, b: nat)
    requires a < b < |log| && Watch(window, log[..a]).legal && Watch(window, log[..b + 1]).legal
    requires WritesInformation(log[b])
    requires forall m :: a < m < b ==> !Ends(log[m]) && !WritesInformation(log[m])
    ensures WritesInformation(log[a]) ==>
              log[b].frameBytes == log[a].frameBytes || NumberIn(log[b]) == Increment(NumberIn(log[a]))
    ensures Watch(window, log[..a]).phase != Up && Watch(window, log[..a + 1]).phase == Up ==> NumberIn(log[b]) == 0
  {
    hide FrameIn, Watch, Ends;
    LegalBefore(window, log[..b + 1], b);
    LegalBefore(window, log[..b + 1], a + 1);
    assert log[..b + 1][..a + 1] == log[..a + 1] && log[..b + 1][..b] == log[..b];
    LegalInformation(window, log, b);
    EmptyIsNoFrame();
    if WritesInformation(log[a]) {
      LegalInformation(window, log, a);
      NumberingStays(window, log, a + 1, b);
    }
    if Watch(window, log[..a]).phase != Up && Watch(window, log[..a + 1]).phase == Up {
      LinkOpens(window, log, a);
      NumberingStays(window, log, a + 1, b);
    }
  }

  lemma EmptyIsNoFrame()
    ensures FrameIn([]).Failure?
  {
    assert ParseFrame(ANY_SIZE, []).Partial?;
  }

  /** Consecutive numbers. Of two information frames written on the same link
      with none between them, the later one repeats the earlier or carries the
      next number modulo 8; the first one after the event that opened the link
      carries zero. */
  lemma NumbersAreConsecutive(o: ChannelOptions, wire: Wire, sleeps: seq<TransportStatus>,
                              calls: seq<Call>, a: nat, b: nat)
    requires o.hdlcUseSession
    requires a < b < |Run(o, Initial(o, wire, sleeps), calls).chan.log|
    requires var log := Run(o, Initial(o, wire, sleeps), calls).chan.log;
             && WritesInformation(log[b])
             && (forall m :: a < m < b ==> !Ends(log[m]) && !WritesInformation(log[m]))
    ensures var log := Run(o, Initial(o, wire, sleeps), calls).chan.log;
            && (WritesInformation(log[a]) ==>
                  log[b].frameBytes == log[a].frameBytes || NumberIn(log[b]) == Increment(NumberIn(log[a])))
            && (Watch(WindowOf(o), log[..a]).phase != Up && Watch(WindowOf(o), log[..a + 1]).phase == Up ==>
                  NumberIn(log[b]) == 0)
  {
    hide Run, FrameIn, Watch;
    InitiallyAgrees(o, wire, sleeps);
    RunAgrees(o, Initial(o, wire, sleeps), calls);
    var log := Run(o, Initial(o, wire, sleeps), calls).chan.log;
    LegalBefore(WindowOf(o), log, a);
    LegalBefore(WindowOf(o), log, b + 1);
    ConsecutiveInLog(WindowOf(o), log, a, b);
  }
}
