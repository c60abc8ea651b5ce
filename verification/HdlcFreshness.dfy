/** What a `Close` and a session renewal forget, in either mode and on any stream:
    all that was received, but for what it did to the session. */
module HdlcFreshness {
  import opened Basics
  import opened Statuses
  import opened HdlcCodec
  import opened HdlcSession
  import opened ProfileTypes
  import opened Transport
  import opened HdlcChannelSpec
  import LlcCodec

  /** Equal up to the log, which no call reads. */
  predicate SameButLog(a: Chan, b: Chan) {
    a.(log := []) == b.(log := [])
  }

  /** Numbers matter on an open link only: opening one starts them afresh. */
  predicate AlikeSessions(s: Session, t: Session) {
    s.options == t.options && s.state == t.state && (s.state == Connected ==> s == t)
  }

  /** Equal up to the log and, unless `exact`, to what a channel in session mode
      never looks at: the numbers of a closed link, and the installed limit, which
      every send installs again. */
  predicate Alike(exact: bool, a: Chan, b: Chan) {
    && SameButLog(a, b.(session := a.session, limits := a.limits))
    && AlikeSessions(a.session, b.session)
    && a.limits.(maximumInformationFieldSize := 0) == b.limits.(maximumInformationFieldSize := 0)
    && (exact ==> a.session == b.session && a.limits == b.limits)
  }

  predicate AlikeReplies(exact: bool, x: Reply, y: Reply) {
    x.status == y.status && Alike(exact, x.chan, y.chan)
  }

  lemma {:induction false} PullsAlike(exact: bool, a: Chan, b: Chan)
    requires Alike(exact, a, b)
    ensures var x, y := Pull(a), Pull(b); x.status == y.status && x.frame == y.frame && Alike(exact, x.chan, y.chan)
    decreases |a.wire.script|
  {
    hide HdlcDecoder.Feed, Wire.ReadSome;
    var read := a.wire.ReadSome(a.capacity);
    if read.status == TransportOk && read.data != [] {
      var pushed := a.decoder.Feed(read.data);
      if MapHdlcStatus(VerdictStatus(pushed.verdict)) == NeedMoreData {
        PullsAlike(exact, a.(wire := read.wire, decoder := a.decoder.(buffer := pushed.buffer)),
                   b.(wire := read.wire, decoder := b.decoder.(buffer := pushed.buffer)));
      }
    }
  }

  lemma FramesAlike(exact: bool, a: Chan, b: Chan)
    requires Alike(exact, a, b)
    ensures var x, y := ReceiveDecodedFrame(a), ReceiveDecodedFrame(b);
            x.status == y.status && x.frame == y.frame && Alike(exact, x.chan, y.chan)
  {
    hide Pull;
    PullsAlike(exact, a, b);
  }

  lemma SessionsHearAlike(s: Session, t: Session, f: Frame)
    requires AlikeSessions(s, t)
    ensures s.ReceiveFrame(f).status == t.ReceiveFrame(f).status
    ensures AlikeSessions(s.ReceiveFrame(f).session, t.ReceiveFrame(f).session)
  {}

  lemma HearsAlike(exact: bool, a: Chan, b: Chan, f: Frame)
    requires Alike(exact, a, b)
    ensures AlikeReplies(exact, Hear(a, f), Hear(b, f))
  {
    hide Session.ReceiveFrame;
    SessionsHearAlike(a.session, b.session, f);
  }

  lemma ControlFramesAlike(exact: bool, a: Chan, b: Chan)
    requires Alike(exact, a, b)
    ensures AlikeReplies(exact, ReceiveSessionControlFrame(a), ReceiveSessionControlFrame(b))
  {
    hide ReceiveDecodedFrame, Hear;
    FramesAlike(exact, Note(a, Polled), Note(b, Polled));
    var x, y := ReceiveDecodedFrame(Note(a, Polled)), ReceiveDecodedFrame(Note(b, Polled));
    if x.status == Ok {
      HearsAlike(exact, x.chan, y.chan, x.frame.value);
    }
  }

  lemma SleepsAlike(exact: bool, o: ChannelOptions, a: Chan, b: Chan)
    requires Alike(exact, a, b)
    ensures AlikeReplies(exact, SleepBeforeRetry(o, a), SleepBeforeRetry(o, b))
  {}

  lemma WritesAlike(exact: bool, a: Chan, b: Chan, frameBytes: bytes)
    requires Alike(exact, a, b)
    ensures AlikeReplies(exact, WriteFrameBytes(a, frameBytes), WriteFrameBytes(b, frameBytes))
  {
    hide Wire.WriteAll;
  }

  lemma {:induction false} WaitsAlike(
    exact: bool, o: ChannelOptions, a: Chan, b: Chan, frameBytes: bytes, attempt: nat)
    requires Alike(exact, a, b) && attempt <= o.hdlcRetryCount
    ensures AlikeReplies(exact, AwaitControlFrame(o, a, frameBytes, attempt),
                         AwaitControlFrame(o, b, frameBytes, attempt))
    decreases o.hdlcRetryCount - attempt
  {
    hide ReceiveSessionControlFrame, SleepBeforeRetry, WriteFrameBytes, Alike;
    ControlFramesAlike(exact, a, b);
    var x, y := ReceiveSessionControlFrame(a), ReceiveSessionControlFrame(b);
    if attempt < o.hdlcRetryCount {
      SleepsAlike(exact, o, x.chan, y.chan);
      var u, v := SleepBeforeRetry(o, x.chan).chan, SleepBeforeRetry(o, y.chan).chan;
      WritesAlike(exact, u, v, frameBytes);
      WaitsAlike(exact, o, WriteFrameBytes(u, frameBytes).chan, WriteFrameBytes(v, frameBytes).chan,
                 frameBytes, attempt + 1);
    }
  }

  lemma SendingAlike(exact: bool, o: ChannelOptions, a: Chan, b: Chan, frameBytes: bytes)
    requires Alike(exact, a, b)
    ensures AlikeReplies(exact, WriteAndAwait(o, a, frameBytes), WriteAndAwait(o, b, frameBytes))
  {
    hide AwaitControlFrame, WriteFrameBytes, Alike;
    WritesAlike(exact, a, b, frameBytes);
    WaitsAlike(exact, o, WriteFrameBytes(a, frameBytes).chan, WriteFrameBytes(b, frameBytes).chan, frameBytes, 0);
  }

  /** The same frame is built, and the session moves in the same way. */
  predicate BuiltAlike(exact: bool, s: Session, t: Session, x: Built, y: Built) {
    && x.status == y.status && x.frameBytes == y.frameBytes && AlikeSessions(x.session, y.session)
    && (exact && s == t ==> x.session == y.session)
  }

  lemma BuildsAlike(exact: bool, s: Session, t: Session)
    requires AlikeSessions(s, t)
    ensures BuiltAlike(exact, s, t, s.BuildConnectRequest(), t.BuildConnectRequest())
    ensures BuiltAlike(exact, s, t, s.BuildConnectResponse(), t.BuildConnectResponse())
    ensures BuiltAlike(exact, s, t, s.BuildDisconnectRequest(), t.BuildDisconnectRequest())
    ensures BuiltAlike(exact, s, t, s.BuildReceiveReadyFrame(true), t.BuildReceiveReadyFrame(true))
  {
    hide EncodeFrame;
  }

  lemma EnsuresAlike(exact: bool, o: ChannelOptions, a: Chan, b: Chan)
    requires Alike(exact, a, b)
    ensures AlikeReplies(exact, EnsureSession(o, a), EnsureSession(o, b))
  {}

  lemma ConnectsAlike(exact: bool, o: ChannelOptions, a: Chan, b: Chan)
    requires Alike(exact, a, b)
    ensures AlikeReplies(exact, ConnectDataLink(o, a), ConnectDataLink(o, b))
  {
    hide WriteAndAwait, EnsureSession, Session.BuildConnectRequest;
    EnsuresAlike(exact, o, a, b);
    var x, y := EnsureSession(o, a).chan, EnsureSession(o, b).chan;
    BuildsAlike(exact, x.session, y.session);
    var u, v := x.session.BuildConnectRequest(), y.session.BuildConnectRequest();
    SendingAlike(exact, o, x.(session := u.session), y.(session := v.session), u.frameBytes);
  }

  lemma AcceptsAlike(exact: bool, o: ChannelOptions, a: Chan, b: Chan)
    requires Alike(exact, a, b)
    ensures AlikeReplies(exact, AcceptDataLink(o, a), AcceptDataLink(o, b))
  {
    hide ReceiveSessionControlFrame, EnsureSession, WriteFrameBytes, Session.BuildConnectResponse;
    EnsuresAlike(exact, o, a, b);
    var x, y := EnsureSession(o, a).chan, EnsureSession(o, b).chan;
    ControlFramesAlike(exact, x, y);
    var u, v := ReceiveSessionControlFrame(x).chan, ReceiveSessionControlFrame(y).chan;
    BuildsAlike(exact, u.session, v.session);
    var built, other := u.session.BuildConnectResponse(), v.session.BuildConnectResponse();
    WritesAlike(exact, u.(session := built.session), v.(session := other.session), built.frameBytes);
  }

  lemma DisconnectsAlike(exact: bool, o: ChannelOptions, a: Chan, b: Chan)
    requires Alike(exact, a, b)
    ensures AlikeReplies(exact, DisconnectDataLink(o, a), DisconnectDataLink(o, b))
  {
    hide WriteAndAwait, Session.BuildDisconnectRequest;
    BuildsAlike(exact, a.session, b.session);
    var u, v := a.session.BuildDisconnectRequest(), b.session.BuildDisconnectRequest();
    SendingAlike(exact, o, a.(session := u.session), b.(session := v.session), u.frameBytes);
  }

  lemma ChunkAlike(o: ChannelOptions, a: Chan, b: Chan, information: bytes, final: bool)
    requires Alike(true, a, b)
    ensures AlikeReplies(true, SendChunk(o, a, information, final), SendChunk(o, b, information, final))
  {
    hide ReceiveSessionControlFrame, WriteAndAwait, BuildSessionInformationFrame;
    ControlFramesAlike(true, a, b);
    var ready := a.session.CanSendInformationFrame();
    var x := if ready then a else ReceiveSessionControlFrame(a).chan;
    var y := if ready then b else ReceiveSessionControlFrame(b).chan;
    InformationAlike(x, y, information, !final, final);
    var u := BuildSessionInformationFrame(x, information, !final, final);
    var v := BuildSessionInformationFrame(y, information, !final, final);
    SendingAlike(true, o, u.chan, v.chan, u.frameBytes);
  }

  lemma InformationAlike(a: Chan, b: Chan, information: bytes, segmented: bool, pollFinal: bool)
    requires Alike(true, a, b)
    ensures var x := BuildSessionInformationFrame(a, information, segmented, pollFinal);
            var y := BuildSessionInformationFrame(b, information, segmented, pollFinal);
            x.status == y.status && x.frameBytes == y.frameBytes && Alike(true, x.chan, y.chan)
  {
    hide Session.BuildInformationFrame, DecodeFrame, EncodeFrame;
  }

  lemma {:induction false} ChunksAlike(
    o: ChannelOptions, a: Chan, b: Chan, lpdu: bytes, chunk: nat, count: nat, i: nat, offset: nat)
    requires Alike(true, a, b) && i <= count && offset <= |lpdu|
    ensures AlikeReplies(true, SendChunks(o, a, lpdu, chunk, count, i, offset),
                         SendChunks(o, b, lpdu, chunk, count, i, offset))
    decreases count - i
  {
    hide SendChunk, Alike;
    if i < count {
      var size := CurrentSize(lpdu, chunk, offset);
      ChunkAlike(o, a, b, lpdu[offset..offset + size], i + 1 == count);
      ChunksAlike(o, SendChunk(o, a, lpdu[offset..offset + size], i + 1 == count).chan,
                  SendChunk(o, b, lpdu[offset..offset + size], i + 1 == count).chan,
                  lpdu, chunk, count, i + 1, offset + size);
    }
  }

  lemma SendsAlike(exact: bool, o: ChannelOptions, a: Chan, b: Chan, apdu: ByteView)
    requires Alike(exact, a, b) && (exact || o.hdlcUseSession)
    ensures AlikeReplies(exact, SendApdu(o, a, apdu), SendApdu(o, b, apdu))
  {
    hide SendChunks, EncodeFrame, FrameCount;
    var encoded := LlcCodec.EncodeLpdu(o.hdlcDirection, apdu.Bytes());
    if encoded.Success? && a.session.state == Connected {
      var chunk := ChunkSize(a, encoded.value);
      ChunksAlike(o, InstallLimit(a), InstallLimit(b), encoded.value, chunk, FrameCount(|encoded.value|, chunk), 0, 0);
    }
  }

  lemma QueuesAlike(exact: bool, o: ChannelOptions, a: Chan, b: Chan, f: Frame)
    requires Alike(exact, a, b)
    ensures AlikeReplies(exact, DecodeCompleteInformation(o, a, f), DecodeCompleteInformation(o, b, f))
  {}

  lemma ReadyAlike(exact: bool, a: Chan, b: Chan)
    requires Alike(exact, a, b)
    ensures AlikeReplies(exact, SendSessionReceiveReady(a, true), SendSessionReceiveReady(b, true))
  {
    hide Session.BuildReceiveReadyFrame, WriteFrameBytes;
    BuildsAlike(exact, a.session, b.session);
    var u, v := a.session.BuildReceiveReadyFrame(true), b.session.BuildReceiveReadyFrame(true);
    WritesAlike(exact, a.(session := u.session), b.(session := v.session), u.frameBytes);
  }

  lemma DecodesAlike(exact: bool, o: ChannelOptions, a: Chan, b: Chan, f: Frame)
    requires Alike(exact, a, b)
    ensures AlikeReplies(exact, DecodeFrameToPendingApdu(o, a, f), DecodeFrameToPendingApdu(o, b, f))
  {
    hide Hear, DecodeCompleteInformation, SendSessionReceiveReady, Reassembler.PushFrame, AlikeSessions;
    if !o.hdlcUseSession {
      QueuesAlike(exact, o, a, b, f);
    } else {
      var joined := a.reassembler.PushFrame(f);
      var x := Note(a, Assembled(f, joined.status)).(reassembler := joined.reassembler);
      var y := Note(b, Assembled(f, joined.status)).(reassembler := joined.reassembler);
      HearsAlike(exact, x, y, joined.completed);
      var u, v := Hear(x, joined.completed).chan, Hear(y, joined.completed).chan;
      QueuesAlike(exact, o, u, v, joined.completed);
      ReadyAlike(exact, DecodeCompleteInformation(o, u, joined.completed).chan,
                 DecodeCompleteInformation(o, v, joined.completed).chan);
    }
  }

  lemma {:induction false} NextApduAlike(exact: bool, o: ChannelOptions, a: Chan, b: Chan)
    requires Alike(exact, a, b)
    ensures AlikeReplies(exact, ReceiveNextApdu(o, a), ReceiveNextApdu(o, b))
    decreases |a.wire.script|, |a.pendingFrames|
  {
    hide ReceiveDecodedFrame, DecodeFrameToPendingApdu, AlikeSessions;
    FramesAlike(exact, a, b);
    var x, y := ReceiveDecodedFrame(a), ReceiveDecodedFrame(b);
    if x.status == Ok {
      DecodesAlike(exact, o, x.chan, y.chan, x.frame.value);
      var u := DecodeFrameToPendingApdu(o, x.chan, x.frame.value);
      var v := DecodeFrameToPendingApdu(o, y.chan, x.frame.value);
      if u.status == NeedMoreData || (u.status == Ok && u.chan.pendingApdus == []) {
        NextApduAlike(exact, o, u.chan, v.chan);
      }
    }
  }

  lemma CallsAlike(exact: bool, o: ChannelOptions, a: Chan, b: Chan, call: Call)
    requires Alike(exact, a, b) && (exact || o.hdlcUseSession)
    ensures var x, y := Apply(o, a, call), Apply(o, b, call);
            x.outcome == y.outcome && Alike(exact, x.chan, y.chan)
  {
    hide ConnectDataLink, AcceptDataLink, DisconnectDataLink, SendApdu, ReceiveNextApdu, AlikeSessions;
    match call
    case CallConnect => ConnectsAlike(exact, o, a, b);
    case CallAccept => AcceptsAlike(exact, o, a, b);
    case CallDisconnect => DisconnectsAlike(exact, o, a, b);
    case CallSend(apdu) => SendsAlike(exact, o, a, b, apdu);
    case CallReceive => NextApduAlike(exact, o, a, b);
    case CallReceiveInto(_, _) => NextApduAlike(exact, o, a, b);
    case _ =>
  }

  /** Channels that are alike stay alike, and return the same, over every run. */
  lemma {:induction false} RunsAlike(exact: bool, o: ChannelOptions, a: Chan, b: Chan, calls: seq<Call>)
    requires Alike(exact, a, b) && (exact || o.hdlcUseSession)
    ensures var x, y := Run(o, a, calls), Run(o, b, calls);
            x.outcomes == y.outcomes && Alike(exact, x.chan, y.chan)
    decreases |calls|
  {
    hide Apply, Alike;
    if calls != [] {
      CallsAlike(exact, o, a, b, calls[0]);
      RunsAlike(exact, o, Apply(o, a, calls[0]).chan, Apply(o, b, calls[0]).chan, calls[1..]);
    }
  }

  /** No call of any run reads the log. */
  lemma RunIgnoresLog(o: ChannelOptions, a: Chan, b: Chan, calls: seq<Call>)
    requires SameButLog(a, b)
    ensures var x, y := Run(o, a, calls), Run(o, b, calls);
            x.outcomes == y.outcomes && SameButLog(x.chan, y.chan)
  {
    hide Run;
    RunsAlike(true, o, a, b, calls);
  }

  /** Freshness. Whatever a channel held of a frame cut short, of a field half
      gathered, of frames and of APDUs, and whether or not closing succeeds: after
      `Close` every run of calls has the outcomes, and reaches the state, it would
      have had without. The stream and the peer may be anything. The session stays,
      with its state and numbers, and so does the installed limit. */
  lemma CloseForgets(o: ChannelOptions, c: Chan, buffer: bytes, partial: Option<Frame>, frames: seq<Frame>,
                     apdus: seq<bytes>, calls: seq<Call>)
    ensures var d := c.(decoder := c.decoder.(buffer := buffer), reassembler := c.reassembler.(partial := partial),
                        pendingFrames := frames, pendingApdus := apdus);
            var x, y := Run(o, Close(c).chan, calls), Run(o, Close(d).chan, calls);
            && Close(c).status == Close(d).status
            && x.outcomes == y.outcomes && SameButLog(x.chan, y.chan)
  {
    hide Run;
    var d := c.(decoder := c.decoder.(buffer := buffer), reassembler := c.reassembler.(partial := partial),
                pendingFrames := frames, pendingApdus := apdus);
    RunIgnoresLog(o, Close(c).chan, Close(d).chan, calls);
  }

  /** Only a disconnected session is renewed, and then the link layer, with its
      new decoder, reassembler and frame queue, starts afresh in the same sense;
      APDUs already received are kept. */
  lemma RenewalForgets(o: ChannelOptions, c: Chan, decoder: HdlcDecoder, reassembler: Reassembler, limits: CodecLimits,
                       frames: seq<Frame>, calls: seq<Call>)
    requires EnsureSession(o, c).status == Ok
    ensures var d := c.(decoder := decoder, reassembler := reassembler, limits := limits, pendingFrames := frames);
            var r := EnsureSession(o, c).chan;
            if c.session.state != Disconnected then r == c
            else
              && Run(o, r, calls).outcomes == Run(o, EnsureSession(o, d).chan, calls).outcomes
              && SameButLog(Run(o, r, calls).chan, Run(o, EnsureSession(o, d).chan, calls).chan)
              && r.pendingApdus == c.pendingApdus && Dry(r.decoder) && r.reassembler.partial == None
  {
    hide Run, Dry;
    var d := c.(decoder := decoder, reassembler := reassembler, limits := limits, pendingFrames := frames);
    var r := EnsureSession(o, c).chan;
    FeedLeavesDry(r.decoder, []);
    if c.session.state == Disconnected {
      RunIgnoresLog(o, r, EnsureSession(o, d).chan, calls);
    }
  }
}
