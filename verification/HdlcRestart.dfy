/** When a closed channel is as good as a new one: exactly when its session is
    disconnected. */
module HdlcRestart {
  import opened Basics
  import opened Statuses
  import opened HdlcCodec
  import opened HdlcSession
  import opened ProfileTypes
  import opened Transport
  import opened HdlcChannelSpec
  import opened HdlcReceive
  import opened HdlcArrival
  import HdlcDelivery
  import HdlcFreshness
  import HdlcLink
  import LlcCodec
  import StreamDecoding

  // ---------------------------------------------------------------------
  // Channels that a run can reach
  // ---------------------------------------------------------------------

  /** A session of a channel with options `o`. */
  predicate SessionBelongs(o: ChannelOptions, s: Session) {
    && s.options == HdlcLink.OptionsOf(o)
    && (s.state == Connecting ==> s.options.role == Client)
    && (s.state == ConnectRequested ==> s.options.role == Server)
    && (MakeHdlcSessionOptions(o).Failure? || !o.hdlcUseSession ==> s == NewSession(s.options))
  }

  /** What the options fix of a channel, whatever has been called. */
  predicate Belongs(o: ChannelOptions, c: Chan) {
    var limits := HdlcLink.OptionsOf(o).limits;
    && SessionBelongs(o, c.session)
    && c.capacity == ScratchSize(o) && c.decoder.limits == limits
    && c.reassembler.maximumSize == limits.maximumReassembledInformationSize
    && c.limits.maximumReassembledInformationSize == limits.maximumReassembledInformationSize
    && (!o.hdlcUseSession ==> c.limits == limits)
  }

  lemma HearingBelongs(o: ChannelOptions, s: Session, f: Frame)
    requires SessionBelongs(o, s) && o.hdlcUseSession
    ensures SessionBelongs(o, s.ReceiveFrame(f).session)
  {}

  lemma BuildingBelongs(o: ChannelOptions, s: Session, information: bytes, pollFinal: bool)
    requires SessionBelongs(o, s) && o.hdlcUseSession
    ensures MakeHdlcSessionOptions(o).Success? ==> SessionBelongs(o, s.BuildConnectRequest().session)
    ensures SessionBelongs(o, s.BuildConnectResponse().session)
    ensures SessionBelongs(o, s.BuildDisconnectRequest().session)
    ensures SessionBelongs(o, s.BuildInformationFrame(information, pollFinal).session)
    ensures SessionBelongs(o, s.BuildReceiveReadyFrame(pollFinal).session)
  {
    hide EncodeFrame;
  }

  lemma {:induction false} PullBelongs(o: ChannelOptions, c: Chan)
    requires Belongs(o, c)
    ensures Belongs(o, Pull(c).chan)
    decreases |c.wire.script|
  {
    hide HdlcDecoder.Feed, Wire.ReadSome, SessionBelongs;
    var read := c.wire.ReadSome(c.capacity);
    if read.status == TransportOk && read.data != [] {
      var pushed := c.decoder.Feed(read.data);
      if MapHdlcStatus(VerdictStatus(pushed.verdict)) == NeedMoreData {
        PullBelongs(o, c.(wire := read.wire, decoder := c.decoder.(buffer := pushed.buffer)));
      }
    }
  }

  lemma FrameBelongs(o: ChannelOptions, c: Chan)
    requires Belongs(o, c)
    ensures Belongs(o, ReceiveDecodedFrame(c).chan)
  {
    hide Pull, SessionBelongs;
    PullBelongs(o, c);
  }

  lemma ControlFrameBelongs(o: ChannelOptions, c: Chan)
    requires Belongs(o, c) && o.hdlcUseSession
    ensures Belongs(o, ReceiveSessionControlFrame(c).chan)
  {
    hide ReceiveDecodedFrame, Session.ReceiveFrame, SessionBelongs;
    FrameBelongs(o, Note(c, Polled));
    var r := ReceiveDecodedFrame(Note(c, Polled));
    if r.status == Ok {
      HearingBelongs(o, r.chan.session, r.frame.value);
    }
  }

  lemma RewritingBelongs(o: ChannelOptions, c: Chan, frameBytes: bytes)
    requires Belongs(o, c)
    ensures Belongs(o, WriteFrameBytes(c, frameBytes).chan) && Belongs(o, SleepBeforeRetry(o, c).chan)
  {
    hide SessionBelongs;
  }

  lemma {:induction false} WaitBelongs(o: ChannelOptions, c: Chan, frameBytes: bytes, attempt: nat)
    requires Belongs(o, c) && o.hdlcUseSession && attempt <= o.hdlcRetryCount
    ensures Belongs(o, AwaitControlFrame(o, c, frameBytes, attempt).chan)
    decreases o.hdlcRetryCount - attempt
  {
    hide ReceiveSessionControlFrame, SleepBeforeRetry, WriteFrameBytes, Belongs;
    ControlFrameBelongs(o, c);
    var r := ReceiveSessionControlFrame(c);
    if attempt < o.hdlcRetryCount {
      RewritingBelongs(o, r.chan, frameBytes);
      var slept := SleepBeforeRetry(o, r.chan).chan;
      RewritingBelongs(o, slept, frameBytes);
      WaitBelongs(o, WriteFrameBytes(slept, frameBytes).chan, frameBytes, attempt + 1);
    }
  }

  lemma SendingBelongs(o: ChannelOptions, c: Chan, frameBytes: bytes)
    requires Belongs(o, c) && o.hdlcUseSession
    ensures Belongs(o, WriteAndAwait(o, c, frameBytes).chan)
  {
    hide AwaitControlFrame, WriteFrameBytes, Belongs;
    RewritingBelongs(o, c, frameBytes);
    WaitBelongs(o, WriteFrameBytes(c, frameBytes).chan, frameBytes, 0);
  }

  lemma EnsuringBelongs(o: ChannelOptions, c: Chan)
    requires Belongs(o, c)
    ensures Belongs(o, EnsureSession(o, c).chan)
  {}

  lemma LinkCallsBelong(o: ChannelOptions, c: Chan)
    requires Belongs(o, c)
    ensures Belongs(o, ConnectDataLink(o, c).chan)
    ensures Belongs(o, AcceptDataLink(o, c).chan)
    ensures Belongs(o, DisconnectDataLink(o, c).chan)
  {
    hide WriteAndAwait, WriteFrameBytes, ReceiveSessionControlFrame, EnsureSession, SessionBelongs;
    hide Session.BuildConnectRequest, Session.BuildConnectResponse, Session.BuildDisconnectRequest;
    EnsuringBelongs(o, c);
    var ready := EnsureSession(o, c).chan;
    if o.hdlcUseSession {
      ControlFrameBelongs(o, ready);
      var heard := ReceiveSessionControlFrame(ready).chan;
      BuildingBelongs(o, ready.session, [], false);
      BuildingBelongs(o, heard.session, [], false);
      BuildingBelongs(o, c.session, [], false);
      if EnsureSession(o, c).status == Ok {
        EnsuredMeansValid(o, c);
        var request := ready.session.BuildConnectRequest();
        SendingBelongs(o, ready.(session := request.session), request.frameBytes);
      }
      var answer := heard.session.BuildConnectResponse();
      RewritingBelongs(o, heard.(session := answer.session), answer.frameBytes);
      var bye := c.session.BuildDisconnectRequest();
      SendingBelongs(o, c.(session := bye.session), bye.frameBytes);
    }
  }

  lemma EnsuredMeansValid(o: ChannelOptions, c: Chan)
    ensures EnsureSession(o, c).status == Ok ==> MakeHdlcSessionOptions(o).Success?
  {}

  lemma ChunkBelongs(o: ChannelOptions, c: Chan, information: bytes, final: bool)
    requires Belongs(o, c) && o.hdlcUseSession
    ensures Belongs(o, SendChunk(o, c, information, final).chan)
  {
    hide WriteAndAwait, ReceiveSessionControlFrame, SessionBelongs, DecodeFrame, EncodeFrame;
    hide Session.BuildInformationFrame;
    ControlFrameBelongs(o, c);
    var ready := if c.session.CanSendInformationFrame() then c else ReceiveSessionControlFrame(c).chan;
    BuildingBelongs(o, ready.session, information, final);
    var built := BuildSessionInformationFrame(ready, information, !final, final);
    SendingBelongs(o, built.chan, built.frameBytes);
  }

  lemma {:induction false} ChunksBelong(
    o: ChannelOptions, c: Chan, lpdu: bytes, chunk: nat, count: nat, i: nat, offset: nat)
    requires Belongs(o, c) && o.hdlcUseSession && i <= count && offset <= |lpdu|
    ensures Belongs(o, SendChunks(o, c, lpdu, chunk, count, i, offset).chan)
    decreases count - i
  {
    hide SendChunk, Belongs;
    if i < count {
      var size := CurrentSize(lpdu, chunk, offset);
      ChunkBelongs(o, c, lpdu[offset..offset + size], i + 1 == count);
      ChunksBelong(o, SendChunk(o, c, lpdu[offset..offset + size], i + 1 == count).chan,
                   lpdu, chunk, count, i + 1, offset + size);
    }
  }

  lemma SendBelongs(o: ChannelOptions, c: Chan, apdu: ByteView)
    requires Belongs(o, c)
    ensures Belongs(o, SendApdu(o, c, apdu).chan)
  {
    hide SendChunks, BuildFrame, FrameCount, WriteFrameBytes, SessionBelongs;
    var encoded := LlcCodec.EncodeLpdu(o.hdlcDirection, apdu.Bytes());
    if encoded.Success? {
      var chunk := ChunkSize(c, encoded.value);
      if o.hdlcUseSession {
        ChunksBelong(o, InstallLimit(c), encoded.value, chunk, FrameCount(|encoded.value|, chunk), 0, 0);
      } else {
        RewritingBelongs(o, c, BuildFrame(o, c, encoded.value).frameBytes);
      }
    }
  }

  lemma ReadyBelongs(o: ChannelOptions, c: Chan)
    requires Belongs(o, c) && o.hdlcUseSession
    ensures Belongs(o, SendSessionReceiveReady(c, true).chan)
  {
    hide WriteFrameBytes, SessionBelongs, Session.BuildReceiveReadyFrame;
    BuildingBelongs(o, c.session, [], true);
    var built := c.session.BuildReceiveReadyFrame(true);
    RewritingBelongs(o, c.(session := built.session), built.frameBytes);
  }

  lemma QueueingBelongs(o: ChannelOptions, c: Chan, f: Frame)
    requires Belongs(o, c)
    ensures Belongs(o, DecodeCompleteInformation(o, c, f).chan)
  {
    hide SessionBelongs;
  }

  lemma DecodingBelongs(o: ChannelOptions, c: Chan, f: Frame)
    requires Belongs(o, c)
    ensures Belongs(o, DecodeFrameToPendingApdu(o, c, f).chan)
  {
    hide DecodeCompleteInformation, SendSessionReceiveReady, Session.ReceiveFrame, SessionBelongs;
    if !o.hdlcUseSession {
      QueueingBelongs(o, c, f);
    } else {
      var joined := c.reassembler.PushFrame(f);
      var d := Note(c, Assembled(f, joined.status)).(reassembler := joined.reassembler);
      HearingBelongs(o, c.session, joined.completed);
      var heard := Hear(d, joined.completed).chan;
      assert Belongs(o, heard);
      QueueingBelongs(o, heard, joined.completed);
      ReadyBelongs(o, DecodeCompleteInformation(o, heard, joined.completed).chan);
    }
  }

  lemma {:induction false} NextApduBelongs(o: ChannelOptions, c: Chan)
    requires Belongs(o, c)
    ensures Belongs(o, ReceiveNextApdu(o, c).chan)
    decreases |c.wire.script|, |c.pendingFrames|
  {
    hide ReceiveDecodedFrame, DecodeFrameToPendingApdu, Belongs;
    FrameBelongs(o, c);
    var received := ReceiveDecodedFrame(c);
    if received.status == Ok {
      DecodingBelongs(o, received.chan, received.frame.value);
      var r := DecodeFrameToPendingApdu(o, received.chan, received.frame.value);
      if r.status == NeedMoreData || (r.status == Ok && r.chan.pendingApdus == []) {
        NextApduBelongs(o, r.chan);
      }
    }
  }

  lemma CallBelongs(o: ChannelOptions, c: Chan, call: Call)
    requires Belongs(o, c)
    ensures Belongs(o, Apply(o, c, call).chan)
  {
    hide ConnectDataLink, AcceptDataLink, DisconnectDataLink, SendApdu, ReceiveNextApdu, SessionBelongs;
    match call
    case CallConnect => LinkCallsBelong(o, c);
    case CallAccept => LinkCallsBelong(o, c);
    case CallDisconnect => LinkCallsBelong(o, c);
    case CallSend(apdu) => SendBelongs(o, c, apdu);
    case CallReceive => NextApduBelongs(o, c);
    case CallReceiveInto(_, _) => NextApduBelongs(o, c);
    case _ =>
  }

  /** Every channel that a run can reach belongs to its options. */
  lemma {:induction false} RunBelongs(o: ChannelOptions, c: Chan, calls: seq<Call>)
    requires Belongs(o, c)
    ensures Belongs(o, Run(o, c, calls).chan)
    decreases |calls|
  {
    hide Apply, Belongs;
    if calls != [] {
      CallBelongs(o, c, calls[0]);
      RunBelongs(o, Apply(o, c, calls[0]).chan, calls[1..]);
    }
  }

  lemma NewBelongs(o: ChannelOptions, wire: Wire, sleeps: seq<TransportStatus>)
    ensures Belongs(o, Initial(o, wire, sleeps))
  {}

  // ---------------------------------------------------------------------
  // With a disconnected session
  // ---------------------------------------------------------------------

  /** A closed channel whose session is disconnected is a new channel on the same
      stream: every run has the same outcomes, and leaves channels alike. */
  lemma ClosedIsNew(o: ChannelOptions, c: Chan, calls: seq<Call>)
    requires Belongs(o, c) && c.session.state == Disconnected
    ensures var x := Run(o, Close(c).chan, calls);
            var y := Run(o, Initial(o, c.wire.Close(), c.sleeps), calls);
            x.outcomes == y.outcomes && HdlcFreshness.Alike(!o.hdlcUseSession, x.chan, y.chan)
  {
    hide Run;
    HdlcFreshness.RunsAlike(!o.hdlcUseSession, o, Close(c).chan, Initial(o, c.wire.Close(), c.sleeps), calls);
  }

  // ---------------------------------------------------------------------
  // With any other session
  // ---------------------------------------------------------------------

  const ONE_BYTE := ReadStep([], Take(1))
  const NOTHING_YET := ReadStep([], Fail(TransportWouldBlock))

  /** An open stream that fails to close, with nobody at the other end. */
  function StillOpen(line: bytes, script: seq<ReadStep>, writeResults: seq<TransportStatus>): Wire {
    Wire(true, line, [], script, writeResults, TransportOk, TransportReadFailed, NoPeer, [])
  }

  /** The runs of `calls` after a `Close` on `w`, and on a new channel. */
  function Reopened(o: ChannelOptions, c: Chan, w: Wire, calls: seq<Call>): History {
    Run(o, Close(c.(wire := w)).chan, calls)
  }

  function Anew(o: ChannelOptions, c: Chan, w: Wire, calls: seq<Call>): History {
    Run(o, Initial(o, w.Close(), c.sleeps), calls)
  }

  lemma FirstOfCalls(o: ChannelOptions, c: Chan, call: Call, rest: seq<Call>)
    ensures var step := Apply(o, c, call);
            Run(o, c, [call] + rest).outcomes == [step.outcome] + Run(o, step.chan, rest).outcomes
  {
    hide Apply;
    assert ([call] + rest)[1..] == rest;
  }

  /** A link that is up, or being taken down: the same disconnect is written on one
      channel and refused on the other. */
  lemma OpenLinkTells(o: ChannelOptions, c: Chan)
    requires Belongs(o, c) && (c.session.state == Connected || c.session.state == Disconnecting)
    ensures var w := StillOpen([], [], [TransportWriteFailed]);
            && Reopened(o, c, w, [CallDisconnect]).outcomes == [Outcome(WriteFailed, [])]
            && Anew(o, c, w, [CallDisconnect]).outcomes == [Outcome(InvalidArgument, [])]
  {
    hide AwaitControlFrame, FrameBytes;
    var w := StillOpen([], [], [TransportWriteFailed]);
    FirstOfCalls(o, Close(c.(wire := w)).chan, CallDisconnect, []);
    FirstOfCalls(o, Initial(o, w.Close(), c.sleeps), CallDisconnect, []);
    assert [CallDisconnect] + [] == [CallDisconnect];
  }

  /** Nothing more comes: a receive of one frame waits, and reports no bad frame. */
  lemma {:induction false} QuietPull(c: Chan)
    requires Flowing(c) && c.pendingFrames == [] && Upcoming(c) == []
    ensures Pull(c).status == NeedMoreData || Pull(c).status == WouldBlock
    decreases |c.wire.script|
  {
    hide HdlcDecoder.Feed, Wire.ReadSome, Decode, NoNoise;
    var read := c.wire.ReadSome(c.capacity);
    if c.wire.line == [] {
      EmptyLineReadsNothing(c.wire, c.capacity);
    } else {
      PromptRead(c.wire, c.capacity);
      PushTakesFromAhead(c, read.data, read.wire);
      FeedWithoutNoise(c.decoder, read.data, read.wire.line);
      var pushed := c.decoder.Feed(read.data);
      var d := c.(wire := read.wire, decoder := c.decoder.(buffer := pushed.buffer));
      assert pushed.frames == [] && Upcoming(d) == [] + Ahead(d).frames;
      if pushed.verdict.NeedMore? {
        QuietPull(d);
      }
    }
  }

  lemma EmptyLineReadsNothing(w: Wire, capacity: nat)
    requires w.open && w.peer.NoPeer? && w.line == [] && Prompt(w.script)
    ensures var r := w.ReadSome(capacity); r.data == [] && (r.status == TransportOk || r.status == TransportWouldBlock)
  {
    if w.script != [] {
      NobodyAnswers(w.(script := w.script[1..]), w.script[0].arrivals);
    }
  }

  /** The answer a connecting client waits for. */
  function AnswerTo(s: Session): Frame {
    Frame(false, s.Local(), s.Remote(), UnnumberedAck, [])
  }

  function OneByteAtATime(n: nat): seq<ReadStep> {
    seq(n, i => ONE_BYTE)
  }

  /** A receive that meets an answer: a session that connects takes it, and reading
      goes on; a disconnected one refuses it. */
  lemma AnswerIsMet(o: ChannelOptions, c: Chan, f: Frame)
    requires o.hdlcUseSession && f == AnswerTo(c.session) && OnTheLine(c, [f])
    requires c.capacity > 0 && Prompt(c.wire.script) && |c.wire.line| <= |c.wire.script|
    ensures c.session.state == Disconnected ==> ReceiveApdu(o, c).status == InvalidFrame
    ensures c.session.state == Connecting ==>
              ReceiveApdu(o, c).status == NeedMoreData || ReceiveApdu(o, c).status == WouldBlock
  {
    hide ReceiveDecodedFrame, Decode, NoNoise, FramesBytes, Dry;
    LineFlows(c, [f]);
    LineIsUpcoming(c, [f]);
    FrameArrives(c);
    FramesComeInOrder(c);
    var received := ReceiveDecodedFrame(c);
    assert Upcoming(received.chan) == [f][1..] == [];
    DecodingKeepsFlowing(o, received.chan, f);
    assert received.frame.value == Upcoming(c)[0] == f;
    var r := DecodeFrameToPendingApdu(o, received.chan, f);
    assert c.session.state == Disconnected ==> r.status == InvalidFrame;
    if c.session.state == Connecting {
      assert r.status == Ok && r.chan.pendingApdus == [] && Upcoming(r.chan) == [];
      QuietFrame(r.chan);
      assert ReceiveNextApdu(o, r.chan).status == ReceiveDecodedFrame(r.chan).status;
    }
  }

  lemma QuietFrame(c: Chan)
    requires Flowing(c) && Upcoming(c) == []
    ensures var status := ReceiveDecodedFrame(c).status; status == NeedMoreData || status == WouldBlock
  {
    hide Pull, Decode, NoNoise;
    QuietPull(c);
  }

  lemma ConnectingTells(o: ChannelOptions, c: Chan) returns (w: Wire)
    requires Belongs(o, c) && c.session.state == Connecting
    ensures Reopened(o, c, w, [CallReceive]).outcomes != Anew(o, c, w, [CallReceive]).outcomes
  {
    hide FrameBytes, ReceiveApdu, Run;
    var f := AnswerTo(c.session);
    var line := FrameBytes(f);
    w := StillOpen(line, OneByteAtATime(|line|), []);
    assert FramesBytes([f]) == [line] && Concat([line]) == line + Concat([]) == line;
    var a, b := Close(c.(wire := w)).chan, Initial(o, w.Close(), c.sleeps);
    assert OnTheLine(a, [f]) && OnTheLine(b, [f]);
    AnswerIsMet(o, a, f);
    AnswerIsMet(o, b, f);
    FirstOfCalls(o, a, CallReceive, []);
    FirstOfCalls(o, b, CallReceive, []);
    assert [CallReceive] + [] == [CallReceive];
    assert Reopened(o, c, w, [CallReceive]).outcomes[0].status == ReceiveApdu(o, a).status;
    assert Anew(o, c, w, [CallReceive]).outcomes[0].status == ReceiveApdu(o, b).status;
  }

  lemma OneByteIsRead(w: Wire, capacity: nat)
    requires w.open && w.outbound == [] && capacity > 0 && w.line != [] && w.script != [] && w.script[0] == ONE_BYTE
    ensures w.ReadSome(capacity)
         == ReadResult(TransportOk, w.line[..1], w.(line := w.line[1..], script := w.script[1..]))
  {}

  lemma OneByteMore(c: Chan, f: Frame)
    requires c.wire.open && c.wire.outbound == [] && c.capacity > 0 && f.information == []
    requires c.decoder.buffer + c.wire.line == FrameBytes(f) && |c.wire.line| > 1
    requires c.wire.script != [] && c.wire.script[0] == ONE_BYTE
    ensures Pull(c) == Pull(c.(decoder := c.decoder.(buffer := c.decoder.buffer + c.wire.line[..1]),
                               wire := c.wire.(line := c.wire.line[1..], script := c.wire.script[1..])))
  {
    hide FrameBytes, HdlcDecoder.Feed, Wire.ReadSome;
    OneByteIsRead(c.wire, c.capacity);
    var b := c.decoder.buffer + c.wire.line[..1];
    assert b + c.wire.line[1..] == FrameBytes(f) && b != FrameBytes(f);
    HdlcDelivery.FeedOfOneFrame(c.decoder, c.wire.line[..1], f);
  }

  lemma NothingIsRead(c: Chan)
    requires c.wire.open && c.wire.outbound == [] && c.wire.script != [] && c.wire.script[0] == NOTHING_YET
    ensures Pull(c) == FrameReply(WouldBlock, None, c.(wire := c.wire.(script := c.wire.script[1..])))
  {
    hide HdlcDecoder.Feed;
  }

  /** One byte at a time, until a read finds nothing. */
  lemma {:induction false} FrameCutShort(c: Chan, f: Frame, n: nat, rest: seq<ReadStep>)
    requires c.wire.open && c.wire.outbound == [] && c.capacity > 0 && f.information == []
    requires c.decoder.buffer + c.wire.line == FrameBytes(f) && n < |c.wire.line|
    requires c.wire.script == OneByteAtATime(n) + [NOTHING_YET] + rest
    ensures Pull(c) == FrameReply(WouldBlock, None,
                                  c.(decoder := c.decoder.(buffer := c.decoder.buffer + c.wire.line[..n]),
                                     wire := c.wire.(line := c.wire.line[n..], script := rest)))
    decreases n
  {
    hide FrameBytes, Pull;
    var script := c.wire.script;
    if n == 0 {
      assert script[1..] == rest && c.decoder.buffer + c.wire.line[..0] == c.decoder.buffer;
      NothingIsRead(c);
    } else {
      assert script[0] == ONE_BYTE && script[1..] == OneByteAtATime(n - 1) + [NOTHING_YET] + rest;
      var data, tail := c.wire.line[..1], c.wire.line[1..];
      var b := c.decoder.buffer + data;
      assert b + tail == FrameBytes(f);
      OneByteMore(c, f);
      FrameCutShort(c.(decoder := c.decoder.(buffer := b), wire := c.wire.(line := tail, script := script[1..])),
                    f, n - 1, rest);
      assert b + tail[..n - 1] == c.decoder.buffer + c.wire.line[..n] && tail[n - 1..] == c.wire.line[n..];
    }
  }

  /** The request a server waits for. */
  function RequestTo(s: Session): Frame {
    Frame(false, s.Local(), s.Remote(), SetNormalResponse, [])
  }

  /** All but the last byte of `f`, then a pause, then the last byte. */
  function InTwoParts(f: Frame): seq<ReadStep>
    requires Encodable(f)
  {
    OneByteAtATime(|FrameBytes(f)| - 1) + [NOTHING_YET] + [ONE_BYTE]
  }

  /** The first receive gets all but the last byte. */
  lemma FirstPart(o: ChannelOptions, c: Chan, f: Frame)
    requires f.information == [] && c.wire == StillOpen(FrameBytes(f), InTwoParts(f), []) && c.capacity > 0
    requires c.decoder.buffer == [] && c.pendingFrames == [] && c.pendingApdus == []
    ensures var r := ReceiveApdu(o, c);
            && r.status == WouldBlock
            && r.chan == c.(decoder := c.decoder.(buffer := FrameBytes(f)[..|FrameBytes(f)| - 1]),
                            wire := StillOpen(FrameBytes(f)[|FrameBytes(f)| - 1..], [ONE_BYTE], []))
  {
    hide Pull, FrameBytes;
    var b := FrameBytes(f);
    assert [] + b == b && [] + b[..|b| - 1] == b[..|b| - 1];
    FrameCutShort(c, f, |b| - 1, [ONE_BYTE]);
  }

  /** The last byte completes the frame only for a decoder that kept the others. */
  lemma LastPart(c: Chan, f: Frame)
    requires f.information == [] && c.pendingFrames == [] && c.capacity > 0
    requires c.wire == StillOpen(FrameBytes(f)[|FrameBytes(f)| - 1..], [ONE_BYTE], [])
    ensures c.decoder.buffer == FrameBytes(f)[..|FrameBytes(f)| - 1] ==>
              var r := ReceiveDecodedFrame(c);
              r.status == Ok && r.frame == Some(f) && r.chan.session == c.session
              && r.chan.wire.open && r.chan.wire.writeResults == []
    ensures c.decoder.buffer == [] ==> ReceiveDecodedFrame(c).status == WouldBlock
  {
    hide FrameBytes, HdlcDecoder.Feed;
    var b := FrameBytes(f);
    var last := b[|b| - 1..];
    assert last[..1] == last && last[1..] == [] && [ONE_BYTE][1..] == [];
    if c.decoder.buffer == b[..|b| - 1] {
      assert c.decoder.buffer + last == b;
      HdlcDelivery.FeedOfOneFrame(c.decoder, last, f);
    } else if c.decoder.buffer == [] {
      LastByteIsFlag(f);
      assert [] + [FLAG] == [FLAG];
      OneFlagIsPartial(c.decoder);
      var next := c.(decoder := c.decoder.(buffer := [FLAG]), wire := StillOpen([], [], []));
      assert Pull(next).status == WouldBlock;
      assert Pull(c) == Pull(next);
    }
  }

  lemma LastByteIsFlag(f: Frame)
    requires Encodable(f)
    ensures FrameBytes(f)[|FrameBytes(f)| - 1..] == [FLAG]
  {}

  lemma OneFlagIsPartial(d: HdlcDecoder)
    requires d.buffer == []
    ensures d.Feed([FLAG]) == StreamDecoding.Pushed([FLAG], [], StreamDecoding.NeedMore)
  {
    assert [] + [FLAG] == [FLAG];
  }

  /** A session that has been asked keeps its decoder when it accepts; a
      disconnected one starts with a new decoder and loses the request. */
  lemma AcceptTells(o: ChannelOptions, c: Chan)
    requires o.hdlcUseSession && o.hdlcRole == Server && MakeHdlcSessionOptions(o).Success?
    requires c.session.options == HdlcLink.OptionsOf(o) && c.pendingFrames == [] && c.capacity > 0
    requires var b := FrameBytes(RequestTo(c.session));
             c.wire == StillOpen(b[|b| - 1..], [ONE_BYTE], []) && c.decoder.buffer == b[..|b| - 1]
    ensures c.session.state == ConnectRequested ==> AcceptDataLink(o, c).status == Ok
    ensures c.session.state == Disconnected ==> AcceptDataLink(o, c).status == WouldBlock
  {
    hide FrameBytes, ReceiveDecodedFrame;
    var f := RequestTo(c.session);
    LastPart(Note(EnsureSession(o, c).chan, Polled), f);
  }

  lemma AskedTells(o: ChannelOptions, c: Chan) returns (w: Wire)
    requires Belongs(o, c) && c.session.state == ConnectRequested
    ensures var calls := [CallReceive, CallAccept];
            Reopened(o, c, w, calls).outcomes != Anew(o, c, w, calls).outcomes
  {
    hide FrameBytes, ReceiveApdu, AcceptDataLink, Run;
    var f := RequestTo(c.session);
    w := StillOpen(FrameBytes(f), InTwoParts(f), []);
    var a, b := Close(c.(wire := w)).chan, Initial(o, w.Close(), c.sleeps);
    FirstPart(o, a, f);
    FirstPart(o, b, f);
    var a1, b1 := ReceiveApdu(o, a).chan, ReceiveApdu(o, b).chan;
    AcceptTells(o, a1);
    AcceptTells(o, b1);
    FirstOfCalls(o, a, CallReceive, [CallAccept]);
    FirstOfCalls(o, b, CallReceive, [CallAccept]);
    FirstOfCalls(o, a1, CallAccept, []);
    FirstOfCalls(o, b1, CallAccept, []);
    assert [CallReceive] + [CallAccept] == [CallReceive, CallAccept] && [CallAccept] + [] == [CallAccept];
    assert Reopened(o, c, w, [CallReceive, CallAccept]).outcomes[1].status == Ok;
    assert Anew(o, c, w, [CallReceive, CallAccept]).outcomes[1].status == WouldBlock;
  }

  /** No run tells the closed channel from a new one, whatever the stream. */
  ghost predicate NothingTells(o: ChannelOptions, c: Chan) {
    forall w: Wire, calls: seq<Call> :: Reopened(o, c, w, calls).outcomes == Anew(o, c, w, calls).outcomes
  }

  /** The dividing line. Of all that `Close` keeps, only the session can matter; and
      it does not matter exactly if it is disconnected. */
  lemma ClosedIsNewExactlyIfDisconnected(o: ChannelOptions, c: Chan)
    requires Belongs(o, c)
    ensures NothingTells(o, c) <==> c.session.state == Disconnected
  {
    hide Run, Close, Initial;
    match c.session.state
    case Disconnected =>
      forall w: Wire, calls: seq<Call> ensures Reopened(o, c, w, calls).outcomes == Anew(o, c, w, calls).outcomes {
        ClosedIsNew(o, c.(wire := w), calls);
      }
    case Connecting => var w := ConnectingTells(o, c);
    case ConnectRequested => var w := AskedTells(o, c);
    case _ => OpenLinkTells(o, c);
  }

  /** What crosses, at the public calls. A disconnect that is taken before the
      `Close` makes the send after it fail at once; without that receive the send
      goes out, although `Close` throws the frame away. */
  lemma DisconnectCrossesClose(o: ChannelOptions, c: Chan)
    requires o.hdlcUseSession && c.session.state == Connected && c.session.va == c.session.vs
    requires c.session.options.negotiation.maxInformationTransmit == 0
    requires LlcCodec.HEADER_SIZE <= c.session.options.limits.maximumInformationFieldSize
    requires c.wire.script == [] && c.wire.openResult == TransportOk && c.wire.writeResults == [TransportWriteFailed]
    requires c.pendingApdus == []
    requires c.pendingFrames == [Frame(false, c.session.Local(), c.session.Remote(), Disconnect, [])]
    ensures var reopen := [CallClose, CallOpen, CallSend(View([]))];
            && Run(o, c, [CallReceive] + reopen).outcomes[3].status == NotOpen
            && Run(o, c, reopen).outcomes[2].status == WriteFailed
  {
    hide ReceiveApdu, SendApdu, Run;
    var send := [CallSend(View([]))];
    var r := ReceiveApdu(o, c);
    DisconnectIsTaken(o, c);
    var a, b := Open(Close(r.chan).chan).chan, Open(Close(c).chan).chan;
    ClosedSessionSendsNothing(o, a);
    FirstWriteFails(o, b);
    FirstOfCalls(o, c, CallReceive, [CallClose, CallOpen] + send);
    AfterReopening(o, r.chan);
    AfterReopening(o, c);
    assert [CallClose, CallOpen] + send == [CallClose, CallOpen, CallSend(View([]))];
  }

  lemma AfterReopening(o: ChannelOptions, c: Chan)
    ensures Run(o, c, [CallClose, CallOpen, CallSend(View([]))]).outcomes[2].status
         == SendApdu(o, Open(Close(c).chan).chan, View([])).status
  {
    hide SendApdu, Run;
    var send := [CallSend(View([]))];
    FirstOfCalls(o, c, CallClose, [CallOpen] + send);
    FirstOfCalls(o, Close(c).chan, CallOpen, send);
    FirstOfCalls(o, Open(Close(c).chan).chan, CallSend(View([])), []);
    assert [CallClose] + ([CallOpen] + send) == [CallClose, CallOpen, CallSend(View([]))];
    assert send + [] == send;
  }

  lemma DisconnectIsTaken(o: ChannelOptions, c: Chan)
    requires o.hdlcUseSession && c.session.state == Connected && c.wire.script == [] && c.pendingApdus == []
    requires c.pendingFrames == [Frame(false, c.session.Local(), c.session.Remote(), Disconnect, [])]
    ensures ReceiveApdu(o, c).chan.session.state == Disconnected
  {
    var r := DecodeFrameToPendingApdu(o, ReceiveDecodedFrame(c).chan, c.pendingFrames[0]);
    assert r.status == Ok && r.chan.pendingFrames == [] && r.chan.session.state == Disconnected;
    assert ReceiveNextApdu(o, r.chan).chan.session.state == Disconnected;
  }

  lemma ClosedSessionSendsNothing(o: ChannelOptions, c: Chan)
    requires o.hdlcUseSession && c.session.state == Disconnected
    ensures SendApdu(o, c, View([])).status == NotOpen
  {}

  lemma FirstWriteFails(o: ChannelOptions, c: Chan)
    requires o.hdlcUseSession && c.session.state == Connected && c.session.va == c.session.vs
    requires c.session.options.negotiation.maxInformationTransmit == 0
    requires LlcCodec.HEADER_SIZE <= c.session.options.limits.maximumInformationFieldSize
    requires c.wire.open && c.wire.writeResults == [TransportWriteFailed]
    ensures SendApdu(o, c, View([])).status == WriteFailed
  {
    hide FrameBytes, SendChunks, AwaitControlFrame;
    var lpdu := LlcCodec.Header(o.hdlcDirection) + [];
    assert lpdu[0..0 + 3] == lpdu;
    SendChunksUnfolds(o, InstallLimit(c), lpdu, 3, 1, 0, 0);
  }
}
