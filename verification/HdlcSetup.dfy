/** What a successful wait means, and what the link calls leave behind. */
module HdlcSetup {
  import opened Basics
  import opened Statuses
  import opened HdlcCodec
  import opened HdlcSession
  import opened ProfileTypes
  import opened Transport
  import opened HdlcChannelSpec
  import opened HdlcReceive
  import LlcCodec

  lemma {:induction false} PullKeepsSession(c: Chan)
    ensures Pull(c).chan.session == c.session && Pull(c).chan.pendingApdus == c.pendingApdus
    decreases |c.wire.script|
  {
    hide HdlcDecoder.Feed, Wire.ReadSome;
    var read := c.wire.ReadSome(c.capacity);
    var pushed := c.decoder.Feed(read.data);
    if read.status == TransportOk && read.data != [] && MapHdlcStatus(VerdictStatus(pushed.verdict)) == NeedMoreData {
      PullKeepsSession(c.(wire := read.wire, decoder := c.decoder.(buffer := pushed.buffer)));
    }
  }

  /** A wait that succeeds means that the session accepted some frame, no more;
      a wait that fails leaves the session as it was. Either way no APDU is
      queued: information frames met while waiting go to the session alone. */
  lemma {:induction false} WaitMeansSomeFrameAccepted(o: ChannelOptions, c: Chan, frameBytes: bytes, attempt: nat)
    returns (f: Frame)
    requires attempt <= o.hdlcRetryCount
    ensures var r := AwaitControlFrame(o, c, frameBytes, attempt);
            && r.chan.pendingApdus == c.pendingApdus
            && (if r.status == Ok then c.session.ReceiveFrame(f) == Heard(HdlcOk, r.chan.session)
                else r.chan.session == c.session)
    decreases o.hdlcRetryCount - attempt
  {
    hide ReceiveSessionControlFrame, Session.ReceiveFrame;
    f := OneWait(c);
    var r := ReceiveSessionControlFrame(c);
    if r.status != Ok && IsRetriable(r.status) && attempt < o.hdlcRetryCount {
      var slept := SleepBeforeRetry(o, r.chan);
      var written := WriteFrameBytes(slept.chan, frameBytes);
      if slept.status == Ok && written.status == Ok {
        f := WaitMeansSomeFrameAccepted(o, written.chan, frameBytes, attempt + 1);
      }
    }
  }

  predicate CarriesReceipt(f: Frame) {
    f.control.Information? || f.control.ReceiveReady?
  }

  /** `d` is `c` with its next frame taken and accepted. */
  predicate TookTheNext(c: Chan, d: Chan) {
    && CleanLine(d) && Upcoming(c) != [] && Upcoming(d) == Upcoming(c)[1..]
    && c.session.ReceiveFrame(Upcoming(c)[0]) == Heard(HdlcOk, d.session)
  }

  /** `d` is `c` with at most its next frame gone, and an unchanged session. */
  predicate TookNothingIn(c: Chan, d: Chan) {
    && CleanLine(d) && d.session == c.session
    && (Upcoming(d) == Upcoming(c) || (Upcoming(c) != [] && Upcoming(d) == Upcoming(c)[1..]))
  }

  lemma OneWaitTakesTheNext(c: Chan)
    requires CleanLine(c)
    ensures var r := ReceiveSessionControlFrame(c);
            && (if r.status == Ok then TookTheNext(c, r.chan) else TookNothingIn(c, r.chan))
            && (IsRetriable(r.status) ==> Upcoming(r.chan) == Upcoming(c))
  {
    hide ReceiveDecodedFrame, Session.ReceiveFrame, Decode, Dry;
    var p := Note(c, Polled);
    FramesComeInOrder(p);
    var received := ReceiveDecodedFrame(p);
    assert Upcoming(p) == Upcoming(c);
    if received.status == Ok {
      RefusalChangesNothing(c.session, received.frame.value);
      RefusalIsFinal(c.session, received.frame.value);
      assert Upcoming(ReceiveSessionControlFrame(c).chan) == Upcoming(received.chan);
    } else {
      assert [] + Upcoming(received.chan) == Upcoming(received.chan);
    }
  }

  lemma RewritingLeavesTheLine(o: ChannelOptions, c: Chan, frameBytes: bytes)
    requires CleanLine(c)
    ensures var slept := SleepBeforeRetry(o, c).chan;
            var written := WriteFrameBytes(slept, frameBytes).chan;
            && CleanLine(slept) && slept.session == c.session && Upcoming(slept) == Upcoming(c)
            && CleanLine(written) && written.session == c.session && Upcoming(written) == Upcoming(c)
  {
    hide Decode, Dry;
  }

  /** Whatever the reads look like and however often it retries, a wait takes at
      most one frame, the next of the line, and succeeds only if the session
      accepts that one: a refusal is never retried. */
  lemma {:induction false} WaitTakesTheNextFrame(o: ChannelOptions, c: Chan, frameBytes: bytes, attempt: nat)
    requires attempt <= o.hdlcRetryCount && CleanLine(c)
    ensures var r := AwaitControlFrame(o, c, frameBytes, attempt);
            if r.status == Ok then TookTheNext(c, r.chan) else TookNothingIn(c, r.chan)
    decreases o.hdlcRetryCount - attempt
  {
    hide ReceiveSessionControlFrame, SleepBeforeRetry, WriteFrameBytes, CleanLine, Upcoming, Session.ReceiveFrame;
    OneWaitTakesTheNext(c);
    var r := ReceiveSessionControlFrame(c);
    if r.status != Ok && IsRetriable(r.status) && attempt < o.hdlcRetryCount {
      RewritingLeavesTheLine(o, r.chan, frameBytes);
      var slept := SleepBeforeRetry(o, r.chan);
      var written := WriteFrameBytes(slept.chan, frameBytes);
      if slept.status == Ok && written.status == Ok {
        WaitTakesTheNextFrame(o, written.chan, frameBytes, attempt + 1);
      }
    }
  }

  lemma RefusalIsFinal(s: Session, f: Frame)
    ensures var status := s.ReceiveFrame(f).status; status != HdlcOk ==> !IsRetriable(MapHdlcStatus(status))
  {}

  /** When a successful wait means an acknowledgement. From a connected session,
      after any number of retries: the link is still up with everything sent
      acknowledged if and only if the next frame of the line is an I or RR frame
      whose N(R) is the next send number. */
  lemma NextFrameDecidesTheWait(o: ChannelOptions, c: Chan, frameBytes: bytes)
    requires CleanLine(c) && c.session.state == Connected
    ensures var r := AwaitControlFrame(o, c, frameBytes, 0);
            r.status == Ok ==>
              && Upcoming(c) != []
              && (r.chan.session.state == Connected && r.chan.session.Unacknowledged() == 0
                  <==> CarriesReceipt(Upcoming(c)[0]) && Upcoming(c)[0].control.nr == c.session.vs)
  {
    hide AwaitControlFrame, CleanLine, Upcoming;
    WaitTakesTheNextFrame(o, c, frameBytes, 0);
  }

  /** A send can succeed although the peer has hung up: a disconnect that was
      queued ends the wait, and the frame stays unacknowledged. */
  lemma DisconnectEndsTheSend(o: ChannelOptions, c: Chan)
    requires o.hdlcUseSession && c.session.state == Connected && c.session.va == c.session.vs
    requires c.wire.open && c.wire.writeResults == []
    requires c.session.options.negotiation.maxInformationTransmit == 0
    requires LlcCodec.HEADER_SIZE <= c.session.options.limits.maximumInformationFieldSize
    requires c.pendingFrames == [Frame(false, c.session.Local(), c.session.Remote(), Disconnect, [])]
    ensures var r := SendApdu(o, c, View([]));
            r.status == Ok && r.chan.session.state == Disconnected && r.chan.session.Unacknowledged() == 1
  {
    hide Pull, FrameBytes, SendChunks;
    var lpdu := LlcCodec.Header(o.hdlcDirection) + [];
    assert lpdu[0..0 + 3] == lpdu;
    SendChunksUnfolds(o, InstallLimit(c), lpdu, 3, 1, 0, 0);
    NoChunkLeft(o, SendChunk(o, InstallLimit(c), lpdu, true).chan, lpdu, 3, 1, 3);
  }

  /** A wait can succeed without the frame being acknowledged: a receipt for what
      was already acknowledged is enough. */
  lemma StaleReceiptEndsTheWait(o: ChannelOptions, c: Chan, frameBytes: bytes)
    requires c.session.state == Connected && c.session.va == 0 && c.session.vs == 1
    requires c.pendingFrames == [Frame(false, c.session.Local(), c.session.Remote(), ReceiveReady(0, true), [])]
    ensures var r := AwaitControlFrame(o, c, frameBytes, 0);
            r.status == Ok && r.chan.session.Unacknowledged() == 1
  {
    hide Pull;
  }

  lemma OneWait(c: Chan) returns (f: Frame)
    ensures var r := ReceiveSessionControlFrame(c);
            && r.chan.pendingApdus == c.pendingApdus
            && (if r.status == Ok then c.session.ReceiveFrame(f) == Heard(HdlcOk, r.chan.session)
                else r.chan.session == c.session)
  {
    hide Pull;
    PullKeepsSession(Note(c, Polled));
    var received := ReceiveDecodedFrame(Note(c, Polled));
    f := if received.status == Ok then received.frame.value
         else Frame(false, Address(0, 0), Address(0, 0), Disconnect, []);
    RefusalChangesNothing(c.session, f);
  }

  lemma RefusalChangesNothing(s: Session, f: Frame)
    ensures s.ReceiveFrame(f).status != HdlcOk ==> s.ReceiveFrame(f).session == s
  {}

  /** A fresh link: connected, all numbers zero. */
  predicate Fresh(s: Session) {
    s.state == Connected && s.vs == 0 && s.vr == 0 && s.va == 0
  }

  /** Connecting succeeds only by completing the handshake, and starts the
      numbering afresh. */
  lemma ConnectedMeansFresh(o: ChannelOptions, c: Chan)
    requires c.session.options.role == o.hdlcRole
    ensures var r := ConnectDataLink(o, c); r.status == Ok ==> Fresh(r.chan.session)
  {
    hide AwaitControlFrame;
    var ready := EnsureSession(o, c).chan;
    var built := ready.session.BuildConnectRequest();
    var written := WriteFrameBytes(ready.(session := built.session), built.frameBytes);
    var f := WaitMeansSomeFrameAccepted(o, written.chan, built.frameBytes, 0);
  }

  /** Accepting succeeds only by answering a request, and starts the numbering afresh. */
  lemma AcceptedMeansFresh(o: ChannelOptions, c: Chan)
    ensures var r := AcceptDataLink(o, c); r.status == Ok ==> Fresh(r.chan.session)
  {
    hide ReceiveSessionControlFrame;
    var heard := ReceiveSessionControlFrame(EnsureSession(o, c).chan);
  }

  /** After a successful disconnect no I-frame can be sent. A server may have been
      asked for a new link instead of having its disconnect acknowledged. */
  lemma DisconnectedMeansDown(o: ChannelOptions, c: Chan)
    ensures var r := DisconnectDataLink(o, c);
            r.status == Ok ==>
              && (r.chan.session.state == Disconnected
                  || (c.session.options.role == Server && r.chan.session.state == ConnectRequested))
              && forall lpdu :: SendSessionInformation(o, r.chan, lpdu) == Reply(NotOpen, r.chan)
  {
    hide AwaitControlFrame;
    var built := c.session.BuildDisconnectRequest();
    var written := WriteFrameBytes(c.(session := built.session), built.frameBytes);
    var f := WaitMeansSomeFrameAccepted(o, written.chan, built.frameBytes, 0);
  }
}
