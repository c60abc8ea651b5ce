/** The other half of delivery: when a send succeeds on a line that loses and
    delays frames, and when it cannot. */
module HdlcProgress {
  import opened Basics
  import opened Statuses
  import opened HdlcCodec
  import opened HdlcSession
  import opened ProfileTypes
  import opened Transport
  import opened HdlcChannelSpec
  import opened HdlcDelivery
  import HdlcRetry

  /** The size of a frame without information. */
  const EMPTY_FRAME_SIZE: nat := FIXED_SIZE + 2

  /** After a read answered so, and without data, the wait goes on. */
  predicate MayGoOn(answer: Answer) {
    answer.Take? || answer.status in {TransportOk, TransportWouldBlock, TransportTimeout}
  }

  /** A read on which nothing reaches the peer and nothing comes in, though it may
      be tried again. */
  predicate LosingStep(step: ReadStep) {
    (forall i :: 0 <= i < |step.arrivals| ==> step.arrivals[i] == Lose) && MayGoOn(step.answer)
  }

  /** A read that finds the oldest frame delivered and its reply arrived whole,
      with the fate of up to `copies` frames settled. */
  predicate DeliveringStep(step: ReadStep, copies: nat) {
    && step.arrivals != [] && step.arrivals[0] == Deliver && copies <= |step.arrivals|
    && step.answer.Take? && step.answer.count >= EMPTY_FRAME_SIZE
  }

  function Losses(script: seq<ReadStep>): (k: nat)
    ensures k <= |script| && forall i :: 0 <= i < k ==> LosingStep(script[i])
  {
    if script == [] || !LosingStep(script[0]) then 0 else 1 + Losses(script[1..])
  }

  /** For each of `n` frames, at most `most` losing reads and then a delivering one. */
  predicate Rounds(script: seq<ReadStep>, most: nat, n: nat)
    decreases n
  {
    n == 0 ||
    var k := Losses(script);
    k <= most && k < |script| && DeliveringStep(script[k], k + 1) && Rounds(script[k + 1..], most, n - 1)
  }

  /** An idle line on which each of the next `n` frames gets through, after at
      most `most` losses. */
  predicate LossyLine(c: Chan, most: nat, n: nat) {
    && c.wire.open && c.wire.writeResults == [] && c.wire.outbound == []
    && Inflight(c) == [] && c.pendingFrames == []
    && c.capacity >= EMPTY_FRAME_SIZE && (most > 0 ==> c.sleeps == [])
    && Rounds(c.wire.script, most, n)
  }

  /** The next `n` reads each find the frame just written delivered and its
      reply arrived whole. */
  predicate PromptLine(c: Chan, n: nat) {
    LossyLine(c, 0, n)
  }

  /** Both ends are connected to each other, and each has acknowledged all it got. */
  predicate InStep(s: Session, p: Peer) {
    && s.state == Connected && s.va == s.vs
    && p.AutoPeer? && p.session.state == Connected
    && p.session.vr == s.vs && p.session.va == p.session.vs == s.vr
    && p.session.Local() == s.Remote() && p.session.Remote() == s.Local()
  }

  predicate FitsBothEnds(c: Chan, size: nat) {
    && FIXED_SIZE + size <= MAXIMUM_LENGTH
    && size <= c.session.options.limits.maximumInformationFieldSize
    && c.wire.peer.AutoPeer? && size <= c.wire.peer.limits.maximumInformationFieldSize
  }

  // ---------------------------------------------------------------------
  // One wait
  // ---------------------------------------------------------------------

  /** Copies of `b` travel to the peer and nothing else moves. */
  predicate Travelling(c: Chan, b: bytes, copies: nat) {
    && c.wire.open && c.wire.writeResults == [] && c.wire.outbound == HdlcRetry.Copies(b, copies)
    && Inflight(c) == [] && c.pendingFrames == [] && c.capacity >= EMPTY_FRAME_SIZE
  }

  lemma OneCopyLess(b: bytes, copies: nat)
    requires copies > 0
    ensures HdlcRetry.Copies(b, copies)[0] == b && HdlcRetry.Copies(b, copies)[1..] == HdlcRetry.Copies(b, copies - 1)
    ensures HdlcRetry.Copies(b, copies - 1) + [b] == HdlcRetry.Copies(b, copies)
  {}

  lemma {:induction false} LosingArrivals(w: Wire, fates: seq<Fate>, b: bytes, copies: nat) returns (left: nat)
    requires w.outbound == HdlcRetry.Copies(b, copies) && forall i :: 0 <= i < |fates| ==> fates[i] == Lose
    ensures left <= copies && w.Arrive(fates) == w.(outbound := HdlcRetry.Copies(b, left))
    ensures fates == [] ==> left == copies
    decreases |fates|
  {
    left := copies;
    if fates != [] && copies > 0 {
      OneCopyLess(b, copies);
      left := LosingArrivals(w.(outbound := w.outbound[1..]), fates[1..], b, copies - 1);
    }
  }

  lemma {:induction false} IgnoredArrivals(w: Wire, fates: seq<Fate>, b: bytes, copies: nat)
    requires w.outbound == HdlcRetry.Copies(b, copies) && copies <= |fates| && (copies > 0 ==> Ignored(w.peer, b))
    ensures w.Arrive(fates) == w.(outbound := [])
    decreases |fates|
  {
    hide Respond;
    if copies > 0 {
      OneCopyLess(b, copies);
      assert w.line + [] == w.line;
      IgnoredArrivals(w.(outbound := w.outbound[1..]), fates[1..], b, copies - 1);
    }
  }

  /** The first copy is delivered; the peer ignores the others. */
  lemma DeliveringArrivals(w: Wire, fates: seq<Fate>, b: bytes, copies: nat)
    requires w.outbound == HdlcRetry.Copies(b, copies) && 0 < copies <= |fates| && fates[0] == Deliver
    requires copies == 1 || Ignored(Respond(w.peer, b).peer, b)
    ensures var r := Respond(w.peer, b);
            w.Arrive(fates) == w.(outbound := [], peer := r.peer, line := w.line + r.reply)
  {
    hide Respond;
    OneCopyLess(b, copies);
    var r := Respond(w.peer, b);
    IgnoredArrivals(w.(outbound := w.outbound[1..], peer := r.peer, line := w.line + r.reply),
                    fates[1..], b, copies - 1);
  }

  /** A read that finds the line empty, after `after` has arrived. */
  lemma EmptyRead(w: Wire, capacity: nat, after: Wire)
    requires w.open && w.script != [] && after == w.(script := w.script[1..]).Arrive(w.script[0].arrivals)
    requires after.line == []
    ensures w.ReadSome(capacity)
         == ReadResult(if w.script[0].answer.Fail? then w.script[0].answer.status else TransportOk, [], after)
  {
    hide Wire.Arrive;
  }

  lemma PullOfNothing(c: Chan, after: Wire)
    requires c.wire.open && c.wire.script != []
    requires after == c.wire.(script := c.wire.script[1..]).Arrive(c.wire.script[0].arrivals) && after.line == []
    ensures var r := Pull(c);
            && r.chan == c.(wire := after) && r.status != Ok
            && (IsRetriable(r.status) <==> MayGoOn(c.wire.script[0].answer))
  {
    hide Wire.ReadSome, Wire.Arrive, HdlcDecoder.Feed;
    EmptyRead(c.wire, c.capacity, after);
  }

  /** Nothing comes in, and the wait may go on. */
  lemma LosingPull(c: Chan, b: bytes, copies: nat) returns (left: nat)
    requires Travelling(c, b, copies) && c.wire.script != [] && LosingStep(c.wire.script[0])
    ensures var r := Pull(c);
            && IsRetriable(r.status) && left <= copies && (c.wire.script[0].arrivals == [] ==> left == copies)
            && r.chan == c.(wire := c.wire.(script := c.wire.script[1..], outbound := HdlcRetry.Copies(b, left)))
  {
    hide Pull, Wire.Arrive;
    var w := c.wire.(script := c.wire.script[1..]);
    left := LosingArrivals(w, c.wire.script[0].arrivals, b, copies);
    PullOfNothing(c, w.Arrive(c.wire.script[0].arrivals));
  }

  /** The reply comes in whole. */
  lemma DeliveringPull(c: Chan, b: bytes, copies: nat, answer: Frame)
    requires Travelling(c, b, copies) && copies > 0 && c.wire.script != [] && DeliveringStep(c.wire.script[0], copies)
    requires answer.information == [] && Respond(c.wire.peer, b).reply == FrameBytes(answer)
    requires copies == 1 || Ignored(Respond(c.wire.peer, b).peer, b)
    ensures var r := Pull(c);
            && r.status == Ok && r.frame == Some(answer)
            && r.chan == c.(log := r.chan.log,
                            wire := c.wire.(script := c.wire.script[1..], outbound := [],
                                           peer := Respond(c.wire.peer, b).peer))
  {
    hide Respond, FrameBytes, HdlcDecoder.Feed, Wire.Arrive, Ignored;
    var reply := FrameBytes(answer);
    DeliveringArrivals(c.wire.(script := c.wire.script[1..]), c.wire.script[0].arrivals, b, copies);
    assert c.decoder.buffer == [] && c.wire.line == [] && [] + reply == reply;
    assert reply[..|reply|] == reply && reply[|reply|..] == [];
    FeedOfOneFrame(c.decoder, reply, answer);
  }

  /** A losing read costs one copy and one retry. */
  lemma LosingWait(o: ChannelOptions, c: Chan, b: bytes, copies: nat, attempt: nat) returns (left: nat, next: Chan)
    requires Travelling(c, b, copies) && attempt < o.hdlcRetryCount && c.sleeps == []
    requires c.wire.script != [] && LosingStep(c.wire.script[0])
    ensures left <= copies && (c.wire.script[0].arrivals == [] ==> left == copies)
    ensures next == c.(log := next.log, wire := c.wire.(script := c.wire.script[1..], writes := c.wire.writes + [b],
                                                        outbound := HdlcRetry.Copies(b, left + 1)))
    ensures AwaitControlFrame(o, c, b, attempt) == AwaitControlFrame(o, next, b, attempt + 1)
  {
    hide Pull, HdlcRetry.Copies, Session.ReceiveFrame;
    left := LosingPull(Note(c, Polled), b, copies);
    OneCopyLess(b, left + 1);
    next := WriteFrameBytes(SleepBeforeRetry(o, ReceiveSessionControlFrame(c).chan).chan, b).chan;
  }

  lemma DeliveringWait(o: ChannelOptions, c: Chan, b: bytes, answer: Frame, copies: nat, attempt: nat)
    requires Travelling(c, b, copies) && copies > 0 && attempt <= o.hdlcRetryCount
    requires c.wire.script != [] && DeliveringStep(c.wire.script[0], copies)
    requires answer.information == [] && Respond(c.wire.peer, b).reply == FrameBytes(answer)
    requires copies == 1 || Ignored(Respond(c.wire.peer, b).peer, b)
    requires c.session.ReceiveFrame(answer).status == HdlcOk
    ensures var r := AwaitControlFrame(o, c, b, attempt);
            && r.status == Ok
            && r.chan == c.(log := r.chan.log, session := c.session.ReceiveFrame(answer).session, wire := r.chan.wire)
            && r.chan.wire == c.wire.(script := c.wire.script[1..], outbound := [],
                                      peer := Respond(c.wire.peer, b).peer)
  {
    hide Respond, FrameBytes, Pull, Session.ReceiveFrame, Ignored, HdlcRetry.Copies;
    DeliveringPull(Note(c, Polled), b, copies, answer);
  }

  /** Success under loss. A wait during which the first `k` reads lose the frame or
      its copies, or find nothing yet, and the next one delivers it with its reply
      succeeds after exactly `k` retransmissions, if `k` is within the budget. */
  lemma {:induction false} LossyWaitSucceeds(
    o: ChannelOptions, c: Chan, b: bytes, answer: Frame, copies: nat, k: nat, attempt: nat)
    requires Travelling(c, b, copies) && copies > 0 && attempt + k <= o.hdlcRetryCount && (k > 0 ==> c.sleeps == [])
    requires k < |c.wire.script| && DeliveringStep(c.wire.script[k], copies + k)
    requires forall i :: 0 <= i < k ==> LosingStep(c.wire.script[i])
    requires answer.information == [] && Respond(c.wire.peer, b).reply == FrameBytes(answer)
    requires copies + k == 1 || Ignored(Respond(c.wire.peer, b).peer, b)
    requires c.session.ReceiveFrame(answer).status == HdlcOk
    ensures var r := AwaitControlFrame(o, c, b, attempt);
            && r.status == Ok
            && r.chan == c.(log := r.chan.log, session := c.session.ReceiveFrame(answer).session, wire := r.chan.wire)
            && r.chan.wire == c.wire.(script := c.wire.script[k + 1..], outbound := [],
                                      peer := Respond(c.wire.peer, b).peer,
                                      writes := c.wire.writes + HdlcRetry.Copies(b, k))
    decreases k
  {
    hide Respond, FrameBytes, AwaitControlFrame, Session.ReceiveFrame, Ignored;
    if k == 0 {
      DeliveringWait(o, c, b, answer, copies, attempt);
      assert c.wire.writes + HdlcRetry.Copies(b, 0) == c.wire.writes;
    } else {
      var left, next := LosingWait(o, c, b, copies, attempt);
      LossyWaitSucceeds(o, next, b, answer, left + 1, k - 1, attempt + 1);
      assert c.wire.script[1..][k..] == c.wire.script[k + 1..];
      assert (c.wire.writes + [b]) + HdlcRetry.Copies(b, k - 1) == c.wire.writes + HdlcRetry.Copies(b, k);
    }
  }

  /** The other half. Once the peer has taken the frame and its reply is lost, no
      number of retransmissions makes the wait succeed: the peer ignores the
      copies. `p` is the peer before it took the frame. */
  lemma LostReplyIsFatal(o: ChannelOptions, c: Chan, p: Peer, f: Frame, copies: nat, attempt: nat)
    requires attempt <= o.hdlcRetryCount && Encodable(f) && f.control.Information?
    requires Respond(p, FrameBytes(f)).reply != [] && c.wire.peer == Respond(p, FrameBytes(f)).peer
    requires c.wire.outbound == HdlcRetry.Copies(FrameBytes(f), copies) && Inflight(c) == [] && c.pendingFrames == []
    ensures var r := AwaitControlFrame(o, c, FrameBytes(f), attempt);
            r.status != Ok && r.chan.wire.peer == c.wire.peer
  {
    hide AwaitControlFrame, Respond, FrameBytes;
    InformationIsTakenOnce(p, f);
    var x := ExchangeOf(p, f);
    var y := Exchange(x.after, x.frame, x.after, [], x.answer);
    assert Reached(y, [], c.wire.peer, c.wire.outbound);
    WaitAcknowledges(o, y, c, attempt);
  }

  // ---------------------------------------------------------------------
  // One frame, and a whole LPDU
  // ---------------------------------------------------------------------

  /** The peer answers the next frame in sequence, and ignores it from then on. */
  lemma PeerAnswers(s: Session, p: Peer, f: Frame)
    requires InStep(s, p) && Encodable(f) && |f.information| <= p.limits.maximumInformationFieldSize
    requires f.destination == s.Remote() && f.source == s.Local()
    requires f.control.Information? && f.control.ns == s.vs && f.control.nr == s.vr
    ensures var answer := Frame(false, s.Local(), s.Remote(), ReceiveReady(Increment(s.vs), true), []);
            && Respond(p, FrameBytes(f)) == Response(Took(p, f), FrameBytes(answer))
            && Ignored(Took(p, f), FrameBytes(f))
  {
    DecodeOfEncoded(p.limits, f);
  }

  /** A frame built by `s` is written, delivered, answered and acknowledged, with
      `k` copies written beside it. */
  lemma LossyExchangeSucceeds(o: ChannelOptions, c: Chan, s: Session, f: Frame, most: nat, n: nat) returns (k: nat)
    requires n > 0 && most <= o.hdlcRetryCount && LossyLine(c, most, n)
    requires InStep(s, c.wire.peer) && c.session == s.(vs := Increment(s.vs))
    requires Encodable(f) && |f.information| <= c.wire.peer.limits.maximumInformationFieldSize
    requires f.destination == s.Remote() && f.source == s.Local()
    requires f.control.Information? && f.control.ns == s.vs && f.control.nr == s.vr
    ensures var r := WriteAndAwait(o, c, FrameBytes(f));
            && r.status == Ok && LossyLine(r.chan, most, n - 1)
            && r.chan.limits == c.limits && r.chan.session == s.(vs := Increment(s.vs), va := Increment(s.vs))
            && r.chan.wire.peer == Took(c.wire.peer, f)
            && k <= most && r.chan.wire.writes == c.wire.writes + HdlcRetry.Copies(FrameBytes(f), k + 1)
  {
    hide FrameBytes, Respond, AwaitControlFrame, Ignored;
    var b := FrameBytes(f);
    k := Losses(c.wire.script);
    PeerAnswers(s, c.wire.peer, f);
    var answer := Frame(false, s.Local(), s.Remote(), ReceiveReady(Increment(s.vs), true), []);
    var written := WriteFrameBytes(c, b).chan;
    assert [] + [b] == HdlcRetry.Copies(b, 1);
    OneMoreInStep(s.vs);
    LossyWaitSucceeds(o, written, b, answer, 1, k, 0);
    assert (c.wire.writes + [b]) + HdlcRetry.Copies(b, k) == c.wire.writes + HdlcRetry.Copies(b, k + 1);
  }

  lemma OneMoreInStep(vs: Mod8)
    ensures Distance(vs, Increment(vs)) == 1 && Distance(vs, vs) == 0
  {}

  lemma LossyChunkSucceeds(o: ChannelOptions, c: Chan, information: bytes, final: bool, most: nat, n: nat)
    returns (k: nat)
    requires n > 0 && most <= o.hdlcRetryCount && LossyLine(c, most, n)
    requires InStep(c.session, c.wire.peer) && FitsBothEnds(c, |information|)
    requires !final ==> |information| <= c.limits.maximumInformationFieldSize
    ensures var r := SendChunk(o, c, information, final);
            && r.status == Ok && LossyLine(r.chan, most, n - 1) && InStep(r.chan.session, r.chan.wire.peer)
            && r.chan.limits == c.limits && r.chan.session.options == c.session.options
            && r.chan.wire.peer.AutoPeer? && r.chan.wire.peer.limits == c.wire.peer.limits
            && k <= most && |r.chan.wire.writes| == |c.wire.writes| + k + 1
  {
    hide FrameBytes, WriteAndAwait, BuildSessionInformationFrame;
    ReencodingOnlySetsTheBit(c, information, !final, final);
    var built := BuildSessionInformationFrame(c, information, !final, final);
    OneMoreInStep(c.session.vs);
    assert built.status == Ok && LossyLine(built.chan, most, n);
    k := LossyExchangeSucceeds(o, built.chan, c.session, SegmentFrame(c.session, information, !final, final), most, n);
  }

  lemma {:induction false} LossyChunksSucceed(
    o: ChannelOptions, c: Chan, lpdu: bytes, chunk: nat, count: nat, i: nat, offset: nat, most: nat)
    requires i <= count && offset <= |lpdu| && most <= o.hdlcRetryCount
    requires LossyLine(c, most, count - i) && InStep(c.session, c.wire.peer)
    requires FitsBothEnds(c, Min(chunk, |lpdu|)) && (count <= 1 || chunk <= c.limits.maximumInformationFieldSize)
    ensures var r := SendChunks(o, c, lpdu, chunk, count, i, offset);
            && r.status == Ok && InStep(r.chan.session, r.chan.wire.peer)
            && |c.wire.writes| + (count - i) <= |r.chan.wire.writes| <= |c.wire.writes| + (count - i) * (most + 1)
    decreases count - i
  {
    hide SendChunk, LossyLine, InStep;
    if i < count {
      var size := CurrentSize(lpdu, chunk, offset);
      var k := LossyChunkSucceeds(o, c, lpdu[offset..offset + size], i + 1 == count, most, count - i);
      LossyChunksSucceed(o, SendChunk(o, c, lpdu[offset..offset + size], i + 1 == count).chan,
                         lpdu, chunk, count, i + 1, offset + size, most);
      HdlcRetry.OneMoreTimes(count - i - 1, most + 1);
    }
  }

  /** Two ends in step, chunks that fit both ends, and a line on which every frame
      gets through with its reply after at most `most` losses, which the retry
      count covers: the send succeeds, leaves the ends in step, and writes each
      frame at most `most` times more than once. */
  lemma LossySendSucceeds(o: ChannelOptions, c: Chan, lpdu: bytes, most: nat)
    requires InStep(c.session, c.wire.peer) && |lpdu| < SIZE_MODULUS && most <= o.hdlcRetryCount
    requires LossyLine(c, most, FrameCount(|lpdu|, ChunkSize(c, lpdu)))
    requires FitsBothEnds(c, Min(ChunkSize(c, lpdu), |lpdu|))
    ensures var r := SendSessionInformation(o, c, lpdu);
            var n := FrameCount(|lpdu|, ChunkSize(c, lpdu));
            && r.status == Ok && InStep(r.chan.session, r.chan.wire.peer)
            && |c.wire.writes| + n <= |r.chan.wire.writes| <= |c.wire.writes| + n * (most + 1)
  {
    hide SendChunks;
    var chunk := ChunkSize(c, lpdu);
    if lpdu != [] {
      FrameCountIsExactUnlessItOverflows(|lpdu|, chunk);
      FinalByCount(|lpdu|, chunk);
    }
    LossyChunksSucceed(o, InstallLimit(c), lpdu, chunk, FrameCount(|lpdu|, chunk), 0, 0, most);
  }

  /** On a line that loses and delays nothing, a send that fits both ends succeeds
      without a single retry: it writes exactly one frame for each chunk. */
  lemma PromptSendSucceeds(o: ChannelOptions, c: Chan, lpdu: bytes)
    requires InStep(c.session, c.wire.peer) && |lpdu| < SIZE_MODULUS
    requires PromptLine(c, FrameCount(|lpdu|, ChunkSize(c, lpdu)))
    requires FitsBothEnds(c, Min(ChunkSize(c, lpdu), |lpdu|))
    ensures var r := SendSessionInformation(o, c, lpdu);
            && r.status == Ok && InStep(r.chan.session, r.chan.wire.peer)
            && |r.chan.wire.writes| == |c.wire.writes| + FrameCount(|lpdu|, ChunkSize(c, lpdu))
  {
    hide SendSessionInformation, InStep;
    LossySendSucceeds(o, c, lpdu, 0);
  }

  /** Whatever is lost or delayed: a send that returns Ok from two ends in step on a
      drained line leaves them in step, with nothing unacknowledged. */
  lemma SendKeepsInStep(o: ChannelOptions, c: Chan, lpdu: bytes)
    requires InStep(c.session, c.wire.peer) && LineDrained(c)
    requires |lpdu| < SIZE_MODULUS && CountFits(c, lpdu)
    ensures var r := SendSessionInformation(o, c, lpdu);
            r.status == Ok ==>
              InStep(r.chan.session, r.chan.wire.peer) && LineDrained(r.chan) && r.chan.session.Unacknowledged() == 0
  {
    hide SendSessionInformation, LineDrained;
    var k := SendIsDelivered(o, c, lpdu);
  }

  // ---------------------------------------------------------------------
  // A lost reply
  // ---------------------------------------------------------------------

  /** The next read delivers the frame that was just written and loses the reply. */
  predicate LosesNextReply(c: Chan) {
    && c.wire.open && c.wire.writeResults == [] && c.wire.outbound == [] && Inflight(c) == [] && c.pendingFrames == []
    && c.capacity > 0 && c.wire.script != []
    && c.wire.script[0].arrivals != [] && c.wire.script[0].arrivals[0] == DeliverButLoseReply
  }

  lemma LostReplyArrivals(w: Wire, fates: seq<Fate>)
    requires |w.outbound| == 1 && fates != [] && fates[0] == DeliverButLoseReply
    ensures w.Arrive(fates) == w.(outbound := [], peer := Respond(w.peer, w.outbound[0]).peer)
  {
    hide Respond;
    var sent := w.(outbound := w.outbound[1..], peer := Respond(w.peer, w.outbound[0]).peer);
    assert sent.Arrive(fates[1..]) == sent;
  }

  lemma LostReplyPull(c: Chan, b: bytes)
    requires c.wire.outbound == [b] && LosesNextReply(c.(wire := c.wire.(outbound := [])))
    ensures var r := Pull(c);
            && r.status != Ok
            && r.chan == c.(wire := c.wire.(script := c.wire.script[1..], outbound := [],
                                           peer := Respond(c.wire.peer, b).peer))
  {
    hide Respond, Pull, Wire.Arrive;
    var w := c.wire.(script := c.wire.script[1..]);
    LostReplyArrivals(w, c.wire.script[0].arrivals);
    PullOfNothing(c, w.Arrive(c.wire.script[0].arrivals));
  }

  lemma LostReplyFailsTheFrame(o: ChannelOptions, c: Chan, f: Frame)
    requires LosesNextReply(c) && Encodable(f) && f.control.Information?
    requires Respond(c.wire.peer, FrameBytes(f)).reply != []
    ensures var r := WriteAndAwait(o, c, FrameBytes(f));
            r.status != Ok && r.chan.wire.peer == Respond(c.wire.peer, FrameBytes(f)).peer
  {
    hide Respond, FrameBytes, Pull, Session.ReceiveFrame;
    var b := FrameBytes(f);
    var written := WriteFrameBytes(c, b).chan;
    assert [] + [b] == [b] == HdlcRetry.Copies(b, 1);
    LostReplyPull(Note(written, Polled), b);
    var r := ReceiveSessionControlFrame(written);
    if IsRetriable(r.status) && o.hdlcRetryCount > 0 {
      var slept := SleepBeforeRetry(o, r.chan);
      var again := WriteFrameBytes(slept.chan, b);
      if slept.status == Ok && again.status == Ok {
        LostReplyIsFatal(o, again.chan, c.wire.peer, f, 1, 1);
      }
    }
  }

  lemma LostReplyFailsTheChunk(o: ChannelOptions, c: Chan, information: bytes, final: bool)
    requires LosesNextReply(c) && InStep(c.session, c.wire.peer) && FitsBothEnds(c, |information|)
    requires !final ==> |information| <= c.limits.maximumInformationFieldSize
    ensures var r := SendChunk(o, c, information, final);
            var f := SegmentFrame(c.session, information, !final, final);
            r.status != Ok && AcceptedBy(r.chan.wire.peer) == AcceptedBy(c.wire.peer) + [f]
  {
    hide FrameBytes, WriteAndAwait, BuildSessionInformationFrame, Respond;
    ReencodingOnlySetsTheBit(c, information, !final, final);
    var built := BuildSessionInformationFrame(c, information, !final, final);
    OneMoreInStep(c.session.vs);
    assert built.status == Ok;
    var f := SegmentFrame(c.session, information, !final, final);
    PeerAnswers(c.session, c.wire.peer, f);
    LostReplyFailsTheFrame(o, built.chan, f);
  }

  /** A single lost reply fails the send, however large the retry count: the peer
      has accepted the first segment, and no copy of it will be answered. */
  lemma LostReplyFailsTheSend(o: ChannelOptions, c: Chan, lpdu: bytes)
    requires LosesNextReply(c) && InStep(c.session, c.wire.peer)
    requires |lpdu| < SIZE_MODULUS && CountFits(c, lpdu)
    requires FitsBothEnds(c, Min(ChunkSize(c, lpdu), |lpdu|))
    ensures var r := SendSessionInformation(o, c, lpdu);
            && r.status != Ok
            && AcceptedBy(r.chan.wire.peer) == AcceptedBy(c.wire.peer)
               + [Segments(c.session, lpdu, ChunkSize(c, lpdu), 0)[0]]
  {
    hide SendChunk, SendSessionInformation, InStep, LosesNextReply, Segments, AcceptedBy, FramesLeft, SegmentFrame;
    var chunk := ChunkSize(c, lpdu);
    var size, final := CurrentSize(lpdu, chunk, 0), FramesLeft(|lpdu|, chunk) == 1;
    InStepMeansConnected(c.session, c.wire.peer);
    FirstSegment(c.session, lpdu, chunk);
    FirstChunkOfSend(o, c, lpdu);
    LimitsDoNotLoseReplies(c, InstallLimit(c).limits);
    LostReplyFailsTheChunk(o, InstallLimit(c), lpdu[..size], final);
  }

  lemma CountIsExact(c: Chan, lpdu: bytes)
    requires |lpdu| < SIZE_MODULUS && CountFits(c, lpdu)
    ensures FrameCount(|lpdu|, ChunkSize(c, lpdu)) == FramesLeft(|lpdu|, ChunkSize(c, lpdu)) >= 1
  {
    if lpdu != [] {
      FrameCountIsExactUnlessItOverflows(|lpdu|, ChunkSize(c, lpdu));
    }
  }

  /** A first chunk that fails ends the send. */
  lemma FirstChunkOfSend(o: ChannelOptions, c: Chan, lpdu: bytes)
    requires c.session.state == Connected && |lpdu| < SIZE_MODULUS && CountFits(c, lpdu)
    ensures var chunk := ChunkSize(c, lpdu);
            var first := SendChunk(o, InstallLimit(c), lpdu[..CurrentSize(lpdu, chunk, 0)],
                                   FramesLeft(|lpdu|, chunk) == 1);
            first.status != Ok ==> SendSessionInformation(o, c, lpdu) == first
  {
    hide SendChunk, SendChunks, FrameCount, FramesLeft;
    var chunk := ChunkSize(c, lpdu);
    var count, size := FrameCount(|lpdu|, chunk), CurrentSize(lpdu, chunk, 0);
    CountIsExact(c, lpdu);
    assert lpdu[0..0 + size] == lpdu[..size];
    SendChunksUnfolds(o, InstallLimit(c), lpdu, chunk, count, 0, 0);
  }

  lemma InStepMeansConnected(s: Session, p: Peer)
    ensures InStep(s, p) ==> s.state == Connected
  {}

  lemma LimitsDoNotLoseReplies(c: Chan, limits: CodecLimits)
    ensures LosesNextReply(c.(limits := limits)) == LosesNextReply(c)
  {}

  lemma FirstSegment(s: Session, lpdu: bytes, chunk: nat)
    requires lpdu != [] ==> chunk > 0
    ensures var final := FramesLeft(|lpdu|, chunk) == 1;
            && Segments(s, lpdu, chunk, 0)[0] == SegmentFrame(s, lpdu[..CurrentSize(lpdu, chunk, 0)], !final, final)
            && (final <==> |lpdu| <= chunk || lpdu == [])
  {
    FinalByCount(|lpdu|, chunk);
  }

  /** A server that a client with session `s` can reach. */
  predicate Reachable(s: Session, p: Peer) {
    && p.AutoPeer? && p.session.options.role == Server
    && p.session.Local() == s.Remote() && p.session.Remote() == s.Local()
  }

  lemma ServerAnswersRequest(s: Session, p: Peer)
    requires Reachable(s, p)
    ensures var r := Respond(p, FrameBytes(s.Outgoing(SetNormalResponse, [])));
            && r.reply == FrameBytes(Frame(false, s.Local(), s.Remote(), UnnumberedAck, []))
            && r.peer == p.(session := p.session.Linked())
  {
    DecodeOfEncoded(p.limits, s.Outgoing(SetNormalResponse, []));
  }

  /** Connecting to a reachable server over a prompt line succeeds and puts both
      ends in step, on a drained line. */
  lemma PromptConnectSucceeds(o: ChannelOptions, c: Chan, n: nat)
    requires o.hdlcUseSession && o.hdlcRole == Client && c.session.state == Disconnected
    requires MakeHdlcSessionOptions(o).Success? && n > 0
    requires PromptLine(EnsureSession(o, c).chan, n)
    requires Reachable(EnsureSession(o, c).chan.session, c.wire.peer)
    ensures var r := ConnectDataLink(o, c);
            && r.status == Ok && PromptLine(r.chan, n - 1)
            && InStep(r.chan.session, r.chan.wire.peer) && LineDrained(r.chan)
  {
    hide FrameBytes, AwaitControlFrame, Respond;
    var e := EnsureSession(o, c).chan;
    var b := FrameBytes(e.session.Outgoing(SetNormalResponse, []));
    var built := e.session.BuildConnectRequest();
    var written := WriteFrameBytes(e.(session := built.session), b);
    assert [] + [b] == HdlcRetry.Copies(b, 1);
    ServerAnswersRequest(e.session, c.wire.peer);
    LossyWaitSucceeds(o, written.chan, b,
                      Frame(false, e.session.Local(), e.session.Remote(), UnnumberedAck, []), 1, 0, 0);
  }
}
