/** Setting up a link on a line that loses and delays frames: what a successful
    `ConnectDataLink` leaves, and when it leaves a drained line. */
module HdlcHandshake {
  import opened Basics
  import opened Statuses
  import opened StreamDecoding
  import opened HdlcCodec
  import opened HdlcSession
  import opened ProfileTypes
  import opened Transport
  import opened HdlcChannelSpec
  import opened HdlcDelivery
  import opened HdlcProgress
  import opened HdlcRetry
  import LlcCodec

  function FrameCopies(f: Frame, k: nat): seq<Frame> {
    seq(k, i => f)
  }

  lemma MoreBytes(b: bytes, n: nat)
    ensures Concat(Copies(b, 0)) == []
    ensures n > 0 ==> Concat(Copies(b, n)) == b + Concat(Copies(b, n - 1)) == Concat(Copies(b, n - 1)) + b
    ensures b != [] && n > 0 ==> Concat(Copies(b, n)) != []
  {
    if n > 0 {
      assert Copies(b, n)[1..] == Copies(b, n - 1);
      assert Copies(b, n) == Copies(b, n - 1) + [b];
      ConcatAppend(Copies(b, n - 1), b);
    }
  }

  /** A decoder that gets a part of `n` copies of one frame takes the whole ones. */
  lemma {:induction false} DecodeOfCopies(limits: CodecLimits, f: Frame, n: nat, b: bytes, x: bytes) returns (k: nat)
    requires Encodable(f) && f.information == [] && b + x == Concat(Copies(FrameBytes(f), n))
    ensures k <= n
    ensures var d := Decode(limits, b);
            && d == Drained(FrameCopies(f, k), d.rest, None)
            && d.rest + x == Concat(Copies(FrameBytes(f), n - k))
            && (b != [] && d.rest == [] ==> k > 0)
    decreases n
  {
    hide FrameBytes, ParseFrame;
    var one := FrameBytes(f);
    MoreBytes(one, n);
    if n == 0 {
      NothingInNothing(limits);
      k := 0;
    } else if |b| < |one| {
      assert b == (b + x)[..|b|] == one[..|b|];
      PrefixIsPartial(limits, f, |b|);
      k := 0;
    } else {
      var tail := b[|one|..];
      assert (b + x)[..|one|] == b[..|one|] == one && b == one + tail;
      assert tail + x == (b + x)[|one|..] == Concat(Copies(one, n - 1));
      ParseUndoesEncode(limits, f, tail);
      k := DecodeOfCopies(limits, f, n - 1, tail, x);
      assert [f] + FrameCopies(f, k) == FrameCopies(f, k + 1);
      k := k + 1;
    }
  }

  /** A request, the server before and after it takes one, and its answer. */
  datatype Handshake = Handshake(request: bytes, answer: Frame, before: Peer, linked: Peer)

  /** Unlike an I-frame, a request that arrives again is answered again. */
  predicate IsHandshake(h: Handshake) {
    && h.answer.information == [] && h.answer.control == UnnumberedAck
    && Respond(h.before, h.request) == Response(h.linked, FrameBytes(h.answer))
    && Respond(h.linked, h.request) == Response(h.linked, FrameBytes(h.answer))
  }

  /** `copies` requests travel to the server and `answers` answers come in. */
  predicate Ringing(h: Handshake, inflight: bytes, w: Wire, copies: nat, answers: nat) {
    && IsHandshake(h) && w.outbound == Copies(h.request, copies)
    && inflight == Concat(Copies(FrameBytes(h.answer), answers))
    && (w.peer == h.linked || (w.peer == h.before && answers == 0))
  }

  /** In a channel, `queued` more answers are in the frame queue. */
  predicate Calling(h: Handshake, c: Chan, copies: nat, answers: nat, queued: nat) {
    && Ringing(h, Inflight(c), c.wire, copies, answers)
    && c.pendingFrames == FrameCopies(h.answer, queued) && (queued > 0 ==> c.wire.peer == h.linked)
  }

  lemma {:induction false} ArrivalsRing(
    h: Handshake, buffer: bytes, w: Wire, fates: seq<Fate>, copies: nat, answers: nat)
    returns (left: nat, coming: nat)
    requires Ringing(h, buffer + w.line, w, copies, answers)
    ensures var a := w.Arrive(fates);
            && Ringing(h, buffer + a.line, a, left, coming) && left + coming <= copies + answers
            && (w.peer == h.linked ==> a.peer == h.linked)
    decreases |fates|
  {
    hide Respond, FrameBytes;
    left, coming := copies, answers;
    if fates != [] && copies > 0 {
      OneCopyLess(h.request, copies);
      var sent := w.(outbound := w.outbound[1..]);
      var reply := FrameBytes(h.answer);
      MoreBytes(reply, answers + 1);
      assert buffer + (w.line + reply) == (buffer + w.line) + reply;
      match fates[0]
      case Lose => left, coming := ArrivalsRing(h, buffer, sent, fates[1..], copies - 1, answers);
      case Deliver =>
        left, coming := ArrivalsRing(h, buffer, sent.(peer := h.linked, line := w.line + reply), fates[1..],
                                     copies - 1, answers + 1);
      case DeliverButLoseReply =>
        left, coming := ArrivalsRing(h, buffer, sent.(peer := h.linked), fates[1..], copies - 1, answers);
    }
  }

  lemma ReadRings(h: Handshake, buffer: bytes, w: Wire, capacity: nat, copies: nat, answers: nat)
    returns (left: nat, coming: nat)
    requires Ringing(h, buffer + w.line, w, copies, answers)
    ensures var r := w.ReadSome(capacity);
            && Ringing(h, (buffer + r.data) + r.wire.line, r.wire, left, coming) && left + coming <= copies + answers
            && (r.status != TransportOk ==> r.data == []) && (w.peer == h.linked ==> r.wire.peer == h.linked)
            && r.wire.writes == w.writes
  {
    hide Respond, FrameBytes, Wire.Arrive;
    left, coming := copies, answers;
    assert buffer + [] == buffer;
    ReadWritesNothing(w, capacity);
    if w.open && w.script != [] {
      var rest := w.(script := w.script[1..]);
      left, coming := ArrivalsRing(h, buffer, rest, w.script[0].arrivals, copies, answers);
      var a := rest.Arrive(w.script[0].arrivals);
      var r := w.ReadSome(capacity);
      assert (buffer + r.data) + r.wire.line == buffer + a.line;
    }
  }

  lemma FeedOfCopies(d: HdlcDecoder, f: Frame, n: nat, input: bytes, later: bytes) returns (k: nat)
    requires f.information == [] && (d.buffer + input) + later == Concat(Copies(FrameBytes(f), n)) && input != []
    ensures k <= n
    ensures var p := d.Feed(input);
            && p.frames == FrameCopies(f, k) && p.buffer + later == Concat(Copies(FrameBytes(f), n - k))
            && p.verdict == (if k == 0 then NeedMore else Done)
  {
    hide FrameBytes, ParseFrame;
    k := DecodeOfCopies(d.limits, f, n, d.buffer + input, later);
    if k == 0 {
      assert Decode(d.limits, d.buffer + input).frames == [];
    } else {
      assert |FrameCopies(f, k)| == k;
    }
  }

  /** Reading yields an answer, or nothing. */
  lemma {:induction false} PullRings(h: Handshake, c: Chan, copies: nat, answers: nat)
    returns (left: nat, coming: nat, queued: nat)
    requires Calling(h, c, copies, answers, 0)
    ensures var r := Pull(c);
            && Calling(h, r.chan, left, coming, queued)
            && left + coming + queued + (if r.status == Ok then 1 else 0) <= copies + answers
            && (r.status == Ok ==> r.frame == Some(h.answer) && r.chan.wire.peer == h.linked)
            && r.chan.session == c.session && r.chan.wire.writes == c.wire.writes
    decreases |c.wire.script|
  {
    hide Respond, FrameBytes, HdlcDecoder.Feed, Wire.ReadSome, IsHandshake;
    left, coming := ReadRings(h, c.decoder.buffer, c.wire, c.capacity, copies, answers);
    queued := 0;
    var read := c.wire.ReadSome(c.capacity);
    var c1 := c.(wire := read.wire);
    assert c.decoder.buffer + [] == c.decoder.buffer;
    assert FrameCopies(h.answer, 0) == [];
    if read.status == TransportOk && read.data != [] {
      assert h.answer.information == [] by { AnswersAreEmpty(h); }
      var k := FeedOfCopies(c.decoder, h.answer, coming, read.data, read.wire.line);
      var pushed := c.decoder.Feed(read.data);
      var next := c1.(decoder := c.decoder.(buffer := pushed.buffer));
      if k == 0 {
        left, coming, queued := PullRings(h, next, left, coming);
      } else {
        assert FrameCopies(h.answer, k)[1..] == FrameCopies(h.answer, k - 1);
        assert c.pendingFrames + FrameCopies(h.answer, k - 1) == FrameCopies(h.answer, k - 1);
        coming, queued := coming - k, k - 1;
      }
    }
  }

  lemma AnswersAreEmpty(h: Handshake)
    requires IsHandshake(h)
    ensures h.answer.information == []
  {}

  lemma FrameRings(h: Handshake, c: Chan, copies: nat, answers: nat, queued: nat)
    returns (left: nat, coming: nat, still: nat)
    requires Calling(h, c, copies, answers, queued)
    ensures var r := ReceiveDecodedFrame(c);
            && Calling(h, r.chan, left, coming, still)
            && left + coming + still + (if r.status == Ok then 1 else 0) <= copies + answers + queued
            && (r.status == Ok ==> r.frame == Some(h.answer) && r.chan.wire.peer == h.linked)
            && r.chan.session == c.session && r.chan.wire.writes == c.wire.writes
  {
    hide Respond, FrameBytes, Pull, IsHandshake;
    left, coming, still := copies, answers, queued;
    if queued > 0 {
      assert FrameCopies(h.answer, queued)[1..] == FrameCopies(h.answer, queued - 1);
      still := queued - 1;
    } else if c.capacity > 0 {
      assert c.pendingFrames == [];
      left, coming, still := PullRings(h, c, copies, answers);
    }
  }

  /** The client waits for the answer to its request. */
  predicate Awaits(h: Handshake, s: Session) {
    s.state == Connecting && s.ReceiveFrame(h.answer) == Heard(HdlcOk, s.Linked())
  }

  lemma SessionDoesNotRing(h: Handshake, c: Chan, d: Chan, copies: nat, answers: nat, queued: nat)
    requires Calling(h, c, copies, answers, queued) && d == c.(session := d.session, log := d.log)
    ensures Calling(h, d, copies, answers, queued)
  {
    hide IsHandshake, Ringing;
  }

  lemma AnswerIsAwaited(h: Handshake, c: Chan, copies: nat, answers: nat, queued: nat)
    returns (left: nat, coming: nat, still: nat)
    requires Calling(h, c, copies, answers, queued) && Awaits(h, c.session)
    ensures var r := ReceiveSessionControlFrame(c);
            && Calling(h, r.chan, left, coming, still) && r.chan.wire.writes == c.wire.writes
            && left + coming + still + (if r.status == Ok then 1 else 0) <= copies + answers + queued
            && (if r.status == Ok then r.chan.session == c.session.Linked() && r.chan.wire.peer == h.linked
                else r.chan.session == c.session)
  {
    hide ReceiveDecodedFrame, Session.ReceiveFrame, Calling;
    var p := Note(c, Polled);
    SessionDoesNotRing(h, c, p, copies, answers, queued);
    left, coming, still := FrameRings(h, p, copies, answers, queued);
    var received := ReceiveDecodedFrame(p).chan;
    SessionDoesNotRing(h, received, ReceiveSessionControlFrame(c).chan, left, coming, still);
  }

  lemma RequestIsRepeated(o: ChannelOptions, h: Handshake, c: Chan, copies: nat, answers: nat, queued: nat)
    requires Calling(h, c, copies, answers, queued)
    ensures var slept := SleepBeforeRetry(o, c).chan;
            var written := WriteFrameBytes(slept, h.request);
            && Calling(h, slept, copies, answers, queued) && slept.session == c.session
            && slept.wire.writes == c.wire.writes
            && Calling(h, written.chan, if written.status == Ok then copies + 1 else copies, answers, queued)
            && written.chan.session == c.session && written.chan.wire.writes == c.wire.writes + [h.request]
  {
    hide Respond, FrameBytes, IsHandshake;
    OneCopyLess(h.request, copies + 1);
    WriteResultIsMapped(SleepBeforeRetry(o, c).chan, h.request);
  }

  lemma WriteResultIsMapped(c: Chan, b: bytes)
    ensures var r := WriteFrameBytes(c, b);
            r.chan.wire.outbound == if r.status == Ok then c.wire.outbound + [b] else c.wire.outbound
  {}

  /** Every answer or request left over is due to a retransmission. */
  lemma {:induction false} WaitForAnswer(
    o: ChannelOptions, h: Handshake, c: Chan, copies: nat, answers: nat, queued: nat, attempt: nat)
    returns (left: nat, coming: nat, still: nat)
    requires Calling(h, c, copies, answers, queued) && Awaits(h, c.session) && attempt <= o.hdlcRetryCount
    ensures var r := AwaitControlFrame(o, c, h.request, attempt);
            && Calling(h, r.chan, left, coming, still)
            && left + coming + still + (if r.status == Ok then 1 else 0) + |c.wire.writes|
               <= copies + answers + queued + |r.chan.wire.writes|
            && (if r.status == Ok then r.chan.session == c.session.Linked() && r.chan.wire.peer == h.linked
                else r.chan.session == c.session)
    decreases o.hdlcRetryCount - attempt
  {
    hide ReceiveSessionControlFrame, SleepBeforeRetry, WriteFrameBytes, Calling, Session.ReceiveFrame;
    left, coming, still := AnswerIsAwaited(h, c, copies, answers, queued);
    var r := ReceiveSessionControlFrame(c);
    if r.status != Ok && IsRetriable(r.status) && attempt < o.hdlcRetryCount {
      RequestIsRepeated(o, h, r.chan, left, coming, still);
      var slept := SleepBeforeRetry(o, r.chan);
      var written := WriteFrameBytes(slept.chan, h.request);
      if slept.status == Ok {
        if written.status == Ok {
          left, coming, still := WaitForAnswer(o, h, written.chan, left + 1, coming, still, attempt + 1);
        }
      }
    }
  }

  /** The handshake between a client with session `s` and a server it can reach. */
  function HandshakeOf(s: Session, p: Peer): Handshake
    requires p.AutoPeer?
  {
    Handshake(FrameBytes(s.Outgoing(SetNormalResponse, [])), Frame(false, s.Local(), s.Remote(), UnnumberedAck, []),
              p, p.(session := p.session.Linked()))
  }

  lemma HandshakeIsOne(s: Session, p: Peer)
    requires Reachable(s, p)
    ensures IsHandshake(HandshakeOf(s, p))
  {
    hide FrameBytes, Respond;
    ServerAnswersRequest(s, p);
    ServerAnswersRequest(s, p.(session := p.session.Linked()));
  }

  lemma DrainedMeansNothingLeft(h: Handshake, c: Chan, copies: nat, answers: nat, queued: nat)
    requires Calling(h, c, copies, answers, queued) && c.wire.peer == h.linked
    ensures LineDrained(c) <==> copies == 0 && answers == 0 && queued == 0
  {
    hide Respond, FrameBytes;
    MoreBytes(FrameBytes(h.answer), answers);
    if copies > 0 {
      assert c.wire.outbound[0] == h.request && !Ignored(h.linked, h.request);
    }
    if queued > 0 {
      assert c.pendingFrames[0] == h.answer;
    }
  }

  /** Connecting under loss. On a line where nothing else travels, whatever requests
      and answers are lost or delayed and however reads are cut: if the call
      returns Ok, both ends are in step; what is left over are `copies` requests in
      transit and `answers + queued` further answers, together no more than the
      retransmissions; and the line is drained exactly if none is left. So a
      call that needed no retry leaves a drained line. */
  lemma ConnectUnderLoss(o: ChannelOptions, c: Chan) returns (copies: nat, answers: nat, queued: nat)
    requires o.hdlcUseSession && o.hdlcRole == Client && c.session.state == Disconnected
    requires MakeHdlcSessionOptions(o).Success? && c.wire.outbound == [] && c.wire.line == []
    requires Reachable(EnsureSession(o, c).chan.session, c.wire.peer)
    ensures var e := EnsureSession(o, c).chan;
            var r := ConnectDataLink(o, c);
            r.status == Ok ==>
              && r.chan.session == e.session.Linked() && InStep(r.chan.session, r.chan.wire.peer)
              && Calling(HandshakeOf(e.session, c.wire.peer), r.chan, copies, answers, queued)
              && copies + answers + queued + 1 <= |r.chan.wire.writes| - |c.wire.writes|
              && (LineDrained(r.chan) <==> copies == 0 && answers == 0 && queued == 0)
  {
    hide FrameBytes, AwaitControlFrame, Respond, IsHandshake, LineDrained;
    var e := EnsureSession(o, c).chan;
    var h := HandshakeOf(e.session, c.wire.peer);
    HandshakeIsOne(e.session, c.wire.peer);
    var built := e.session.BuildConnectRequest();
    var started := e.(session := built.session);
    copies, answers, queued := 0, 0, 0;
    MoreBytes(FrameBytes(h.answer), 0);
    assert Copies(h.request, 1) == [] + [h.request] && FrameCopies(h.answer, 0) == [];
    var written := WriteFrameBytes(started, h.request);
    if c.wire.open && written.status == Ok {
      WriteResultIsMapped(started, h.request);
      assert Calling(h, written.chan, 1, 0, 0);
      copies, answers, queued := WaitForAnswer(o, h, written.chan, 1, 0, 0, 0);
      var r := AwaitControlFrame(o, written.chan, h.request, 0);
      if r.status == Ok {
        DrainedMeansNothingLeft(h, r.chan, copies, answers, queued);
      }
    }
  }

  /** A further answer fails the first send: the session refuses it, which is not
      retried, and the frame stays unacknowledged. */
  lemma LateAnswerFailsTheSend(o: ChannelOptions, c: Chan)
    requires o.hdlcUseSession && c.session.state == Connected && c.session.va == c.session.vs
    requires c.wire.open && c.wire.writeResults == []
    requires c.session.options.negotiation.maxInformationTransmit == 0
    requires LlcCodec.HEADER_SIZE <= c.session.options.limits.maximumInformationFieldSize
    requires c.pendingFrames != []
    requires c.pendingFrames[0] == Frame(false, c.session.Local(), c.session.Remote(), UnnumberedAck, [])
    ensures var r := SendApdu(o, c, View([]));
            r.status == InvalidFrame && r.chan.session.state == Connected && r.chan.session.Unacknowledged() == 1
  {
    hide Pull, FrameBytes, SendChunks;
    var lpdu := LlcCodec.Header(o.hdlcDirection) + [];
    assert lpdu[0..0 + 3] == lpdu;
    SendChunksUnfolds(o, InstallLimit(c), lpdu, 3, 1, 0, 0);
  }

  /** One push that brings the answer twice. */
  lemma TwoAnswersAtOnce(c: Chan, f: Frame)
    requires f.information == [] && c.decoder.buffer == [] && c.pendingFrames == []
    requires c.capacity >= 2 * EMPTY_FRAME_SIZE
    requires c.wire.open && c.wire.script != [] && c.wire.script[0].answer == Take(2 * EMPTY_FRAME_SIZE)
    requires c.wire.script[0].arrivals == [Deliver, Deliver] && |c.wire.outbound| == 2 && c.wire.line == []
    requires Respond(c.wire.peer, c.wire.outbound[0]).reply == FrameBytes(f)
    requires Respond(Respond(c.wire.peer, c.wire.outbound[0]).peer, c.wire.outbound[1]).reply == FrameBytes(f)
    ensures var r := Pull(c);
            && r.status == Ok && r.frame == Some(f) && r.chan.pendingFrames == [f]
            && r.chan.session == c.session
            && r.chan.wire.open == c.wire.open && r.chan.wire.writeResults == c.wire.writeResults
  {
    hide FrameBytes, Respond, HdlcDecoder.Feed;
    var b := FrameBytes(f);
    var w := c.wire.(script := c.wire.script[1..]);
    var one := w.(outbound := w.outbound[1..], peer := Respond(w.peer, w.outbound[0]).peer, line := [] + b);
    var two := one.(outbound := one.outbound[1..], peer := Respond(one.peer, one.outbound[0]).peer,
                    line := ([] + b) + b);
    assert [Deliver, Deliver][1..] == [Deliver] && [Deliver][1..] == [];
    assert w.Arrive([Deliver, Deliver]) == one.Arrive([Deliver]) == two.Arrive([]) == two;
    MoreBytes(b, 2);
    MoreBytes(b, 1);
    var all := two.line;
    assert all == b + b == Concat(Copies(b, 2)) && all[..|all|] == all && all[|all|..] == [];
    var k := FeedOfCopies(c.decoder, f, 2, all, []);
    assert k == 2 by { BothAreWhole(c.decoder, f); }
    assert FrameCopies(f, 2) == [f, f];
    assert c.decoder.Feed(all).frames == [f, f] && c.pendingFrames + [f] == [f];
  }

  lemma BothAreWhole(d: HdlcDecoder, f: Frame)
    requires d.buffer == [] && f.information == []
    ensures d.Feed(FrameBytes(f) + FrameBytes(f)).frames == [f, f]
  {
    hide ParseFrame, FrameBytes;
    var b := FrameBytes(f);
    assert FramesBytes([f, f]) == [b, b] && Concat([b, b]) == b + Concat([b]) && Concat([b]) == b;
    DecodeUndoesEncode(d.limits, [f, f]);
    assert [] + (b + b) == b + b;
  }

  const ALL_DELAYED := [ReadStep([], Fail(TransportWouldBlock)),
                        ReadStep([Deliver, Deliver], Take(2 * EMPTY_FRAME_SIZE))]

  lemma DelayedWait(o: ChannelOptions, h: Handshake, c: Chan)
    requires IsHandshake(h) && Awaits(h, c.session) && c.wire.peer == h.before && o.hdlcRetryCount > 0
    requires Travelling(c, h.request, 1) && c.capacity >= 2 * EMPTY_FRAME_SIZE && c.sleeps == []
    requires c.wire.script == ALL_DELAYED
    ensures var r := AwaitControlFrame(o, c, h.request, 0);
            && r.status == Ok && r.chan.session == c.session.Linked() && r.chan.pendingFrames == [h.answer]
            && r.chan.wire.open && r.chan.wire.writeResults == []
  {
    hide FrameBytes, Respond, Pull, AwaitControlFrame, Session.ReceiveFrame;
    var left, second := LosingWait(o, c, h.request, 1, 0);
    OneCopyLess(h.request, 2);
    OneCopyLess(h.request, 1);
    TwoAnswersAtOnce(Note(second, Polled), h.answer);
    FirstAnswerEnds(o, second, h, 1);
  }

  lemma FirstAnswerEnds(o: ChannelOptions, c: Chan, h: Handshake, attempt: nat)
    requires attempt <= o.hdlcRetryCount && Awaits(h, c.session) && c.pendingFrames == [] && c.capacity > 0
    requires var r := Pull(Note(c, Polled)); r.status == Ok && r.frame == Some(h.answer) && r.chan.session == c.session
    ensures var r, p := AwaitControlFrame(o, c, h.request, attempt), Pull(Note(c, Polled)).chan;
            r.status == Ok && r.chan == p.(session := c.session.Linked(), log := r.chan.log)
  {
    hide Pull, Session.ReceiveFrame;
  }

  /** Two ends whose first request is only delayed. */
  predicate OnlyDelayed(o: ChannelOptions, c: Chan) {
    && o.hdlcUseSession && o.hdlcRole == Client && c.session.state == Disconnected
    && MakeHdlcSessionOptions(o).Success? && o.hdlcRetryCount > 0
    && Reachable(EnsureSession(o, c).chan.session, c.wire.peer)
    && c.wire.open && c.wire.writeResults == [] && c.wire.outbound == [] && c.wire.line == [] && c.sleeps == []
    && c.capacity >= 2 * EMPTY_FRAME_SIZE && c.wire.script == ALL_DELAYED
  }

  lemma DelayedConnect(o: ChannelOptions, c: Chan)
    requires OnlyDelayed(o, c)
    ensures var s := EnsureSession(o, c).chan.session;
            var r := ConnectDataLink(o, c);
            && r.status == Ok && r.chan.session == s.Linked() && r.chan.wire.open && r.chan.wire.writeResults == []
            && r.chan.pendingFrames == [Frame(false, s.Local(), s.Remote(), UnnumberedAck, [])]
  {
    hide FrameBytes, Respond, AwaitControlFrame, IsHandshake;
    var e := EnsureSession(o, c).chan;
    var h := HandshakeOf(e.session, c.wire.peer);
    HandshakeIsOne(e.session, c.wire.peer);
    var started := e.(session := e.session.BuildConnectRequest().session);
    assert [] + [h.request] == [h.request] == Copies(h.request, 1);
    DelayedWait(o, h, WriteFrameBytes(started, h.request).chan);
  }

  /** The failure is reachable: the first request is only delayed, both copies are
      answered, the connect succeeds and the first send fails. */
  lemma DelayedRequestBreaksTheSend(o: ChannelOptions, c: Chan)
    requires OnlyDelayed(o, c) && o.hdlcMaxInformationFieldLengthTransmit == 0
    requires LlcCodec.HEADER_SIZE <= o.defaultHdlcLimits.maximumInformationFieldSize
    ensures var run := Run(o, c, [CallConnect, CallSend(View([]))]);
            run.outcomes == [Outcome(Ok, []), Outcome(InvalidFrame, [])]
  {
    hide ConnectDataLink, SendApdu, Reachable;
    DelayedConnect(o, c);
    LateAnswerFailsTheSend(o, ConnectDataLink(o, c).chan);
    assert [CallConnect, CallSend(View([]))][1..] == [CallSend(View([]))];
    assert [CallSend(View([]))][1..] == [];
  }
}
