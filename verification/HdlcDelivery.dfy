/** Stop-and-wait delivery: what the peer has accepted when a session send
    returns, on a line that loses and delays frames and replies. */
module HdlcDelivery {
  import opened Basics
  import opened Statuses
  import opened StreamDecoding
  import opened HdlcCodec
  import opened HdlcSession
  import opened ProfileTypes
  import opened Transport
  import opened HdlcChannelSpec
  import LlcCodec

  // ---------------------------------------------------------------------
  // The segments of an LPDU
  // ---------------------------------------------------------------------

  /** The I-frames that carry `lpdu` from `offset` on. */
  function Segments(s: Session, lpdu: bytes, chunk: nat, offset: nat): (frames: seq<Frame>)
    requires offset <= |lpdu| && (offset < |lpdu| ==> chunk > 0)
    decreases |lpdu| - offset
  {
    var size := Min(chunk, |lpdu| - offset);
    var final := offset + size == |lpdu|;
    var f := Frame(!final, s.Remote(), s.Local(), Information(s.vs, s.vr, final), lpdu[offset..offset + size]);
    if final then [f] else [f] + Segments(s.(vs := Increment(s.vs)), lpdu, chunk, offset + size)
  }

  function Informations(frames: seq<Frame>): seq<bytes> {
    seq(|frames|, i requires 0 <= i < |frames| => frames[i].information)
  }

  /** The segments concatenate to the LPDU. */
  lemma {:induction false} SegmentsCoverLpdu(s: Session, lpdu: bytes, chunk: nat, offset: nat)
    requires offset <= |lpdu| && (offset < |lpdu| ==> chunk > 0)
    ensures Concat(Informations(Segments(s, lpdu, chunk, offset))) == lpdu[offset..]
    decreases |lpdu| - offset
  {
    var size := Min(chunk, |lpdu| - offset);
    var fs := Segments(s, lpdu, chunk, offset);
    assert lpdu[offset..] == lpdu[offset..offset + size] + lpdu[offset + size..];
    if offset + size == |lpdu| {
      assert Informations(fs) == [lpdu[offset..offset + size]];
      ConcatAppend([], lpdu[offset..offset + size]);
    } else {
      var next := s.(vs := Increment(s.vs));
      SegmentsCoverLpdu(next, lpdu, chunk, offset + size);
      assert Informations(fs)[1..] == Informations(Segments(next, lpdu, chunk, offset + size));
    }
  }

  /** All but the last segment are full and marked as segmented, the last one
      alone polls, and the send numbers are consecutive modulo 8. */
  lemma {:induction false} SegmentShape(s: Session, lpdu: bytes, chunk: nat, offset: nat, i: nat)
    requires offset <= |lpdu| && (offset < |lpdu| ==> chunk > 0)
    requires i < |Segments(s, lpdu, chunk, offset)|
    ensures var fs := Segments(s, lpdu, chunk, offset);
            && fs[i].segmented == (i < |fs| - 1)
            && fs[i].control == Information((s.vs + i) % 8, s.vr, i == |fs| - 1)
            && (i < |fs| - 1 ==> |fs[i].information| == chunk)
            && |fs[i].information| <= chunk
            && (offset < |lpdu| ==> 1 <= |fs[i].information|)
    decreases i
  {
    hide Session.Remote, Session.Local;
    if i > 0 {
      NextNumber(s.vs, i);
      SegmentShape(s.(vs := Increment(s.vs)), lpdu, chunk, offset + Min(chunk, |lpdu| - offset), i - 1);
    }
  }

  lemma NextNumber(vs: Mod8, i: nat)
    requires i > 0
    ensures (Increment(vs) + (i - 1)) % 8 == (vs + i) % 8
  {}

  lemma OneMoreChunk(n: nat, chunk: nat)
    requires n > chunk > 0
    ensures (n + chunk - 1) / chunk == (n - chunk + chunk - 1) / chunk + 1
  {
    var a := n - 1;
    var q, r := a / chunk, a % chunk;
    assert a + chunk == (q + 1) * chunk + r;
    QuotientIs(a + chunk, chunk, q + 1, r);
  }

  lemma QuotientIs(a: int, c: int, q: int, r: int)
    requires c > 0 && 0 <= r < c && a == q * c + r
    ensures a / c == q
  {
    var d := a / c - q;
    assert d * c == r - a % c;
    assert d > 0 ==> d * c >= c;
    assert d < 0 ==> d * c <= -c;
  }

  /** The number of frames still to send, counted by ceiling division. */
  function FramesLeft(size: nat, chunk: nat): nat
    requires size > 0 ==> chunk > 0
  {
    if size == 0 then 1 else (size + chunk - 1) / chunk
  }

  lemma {:induction false} SegmentCount(s: Session, lpdu: bytes, chunk: nat, offset: nat)
    requires offset <= |lpdu| && (offset < |lpdu| ==> chunk > 0)
    ensures |Segments(s, lpdu, chunk, offset)| == FramesLeft(|lpdu| - offset, chunk)
    decreases |lpdu| - offset
  {
    var n := |lpdu| - offset;
    if n > chunk {
      OneMoreChunk(n, chunk);
      SegmentCount(s.(vs := Increment(s.vs)), lpdu, chunk, offset + chunk);
    } else if n > 0 {
      QuotientIs(n + chunk - 1, chunk, 1, n - 1);
    }
  }

  // ---------------------------------------------------------------------
  // Building one segment
  // ---------------------------------------------------------------------

  function SegmentFrame(s: Session, information: bytes, segmented: bool, pollFinal: bool): Frame {
    Frame(segmented, s.Remote(), s.Local(), Information(s.vs, s.vr, pollFinal), information)
  }

  /** Decoding and encoding again changes nothing but the segmentation bit, and
      cannot fail within the installed limit. */
  lemma ReencodingOnlySetsTheBit(c: Chan, information: bytes, segmented: bool, pollFinal: bool)
    requires segmented ==> |information| <= c.limits.maximumInformationFieldSize
    ensures var built := c.session.BuildInformationFrame(information, pollFinal);
            var r := BuildSessionInformationFrame(c, information, segmented, pollFinal);
            var f := SegmentFrame(c.session, information, segmented, pollFinal);
            && r.chan == c.(session := built.session)
            && (r.status == Ok <==> built.status == HdlcOk)
            && (r.status == Ok ==>
                  && c.session.CanSendInformationFrame()
                  && r.chan.session == c.session.(vs := Increment(c.session.vs))
                  && Encodable(f) && r.frameBytes == FrameBytes(f))
  {
    var built := c.session.BuildInformationFrame(information, pollFinal);
    if built.status == HdlcOk && segmented {
      DecodeOfEncoded(c.limits, SegmentFrame(c.session, information, false, pollFinal));
    }
  }

  // ---------------------------------------------------------------------
  // One frame on the line, until it is acknowledged
  // ---------------------------------------------------------------------

  predicate Ignored(p: Peer, frameBytes: bytes) {
    Respond(p, frameBytes) == Response(p, [])
  }

  /** A frame, the peer before and after it takes the frame, and its reply. */
  datatype Exchange = Exchange(before: Peer, frame: bytes, after: Peer, reply: bytes, answer: Frame)

  predicate IsExchange(x: Exchange) {
    && Respond(x.before, x.frame) == Response(x.after, x.reply)
    && Ignored(x.after, x.frame)
    && (x.reply != [] ==> Encodable(x.answer) && x.answer.information == [] && x.reply == FrameBytes(x.answer))
  }

  /** The frame has not reached the peer: what travels ahead of its copies is
      ignored, and nothing is coming back. `inflight` is what the decoder
      holds of the reply with what the line holds of it. */
  ghost predicate Waiting(x: Exchange, inflight: bytes, p: Peer, outbound: seq<bytes>) {
    && p == x.before
    && inflight == []
    && (forall i :: 0 <= i < |outbound| ==> outbound[i] == x.frame || Ignored(x.before, outbound[i]))
    && (forall i, j :: 0 <= i <= j < |outbound| && !Ignored(x.before, outbound[i]) ==> outbound[j] == x.frame)
  }

  /** The frame has reached the peer: only copies travel, and the reply, if not
      lost, is wholly between the line and the decoder. */
  ghost predicate Reached(x: Exchange, inflight: bytes, p: Peer, outbound: seq<bytes>) {
    && p == x.after
    && (inflight == [] || inflight == x.reply)
    && (forall i :: 0 <= i < |outbound| ==> outbound[i] == x.frame)
  }

  ghost predicate OnLine(x: Exchange, inflight: bytes, p: Peer, outbound: seq<bytes>) {
    IsExchange(x) && (Waiting(x, inflight, p, outbound) || Reached(x, inflight, p, outbound))
  }

  function Inflight(c: Chan): bytes {
    c.decoder.buffer + c.wire.line
  }

  ghost predicate Exchanging(x: Exchange, c: Chan) {
    && OnLine(x, Inflight(c), c.wire.peer, c.wire.outbound)
    && c.pendingFrames == []
    && (x.reply != [] ==> x.answer.control.ReceiveReady?)
  }

  /** The oldest frame in transit is lost, or arrives with or without its
      reply getting through. */
  lemma OneArrival(x: Exchange, inflight: bytes, p: Peer, outbound: seq<bytes>)
    requires OnLine(x, inflight, p, outbound) && outbound != []
    ensures var r := Respond(p, outbound[0]);
            && OnLine(x, inflight, p, outbound[1..])
            && OnLine(x, inflight, r.peer, outbound[1..])
            && OnLine(x, inflight + r.reply, r.peer, outbound[1..])
  {
    hide Respond;
    var r := Respond(p, outbound[0]);
    assert [] + r.reply == r.reply && inflight + [] == inflight;
    if Waiting(x, inflight, p, outbound) {
      assert Waiting(x, inflight, p, outbound[1..]);
      if !Ignored(x.before, outbound[0]) {
        assert Reached(x, r.reply, r.peer, outbound[1..]);
      }
    } else {
      assert Reached(x, inflight, p, outbound[1..]);
    }
  }

  lemma {:induction false} ArrivalsStayOnLine(x: Exchange, buffer: bytes, w: Wire, fates: seq<Fate>)
    requires OnLine(x, buffer + w.line, w.peer, w.outbound)
    ensures var a := w.Arrive(fates); OnLine(x, buffer + a.line, a.peer, a.outbound)
    decreases |fates|
  {
    hide OnLine, Respond;
    if fates != [] && w.outbound != [] {
      OneArrival(x, buffer + w.line, w.peer, w.outbound);
      var sent := w.(outbound := w.outbound[1..]);
      var r := Respond(w.peer, w.outbound[0]);
      var next := if fates[0] == Lose then sent
                  else sent.(peer := r.peer, line := if fates[0] == Deliver then w.line + r.reply else w.line);
      assert buffer + (w.line + r.reply) == (buffer + w.line) + r.reply;
      ArrivalsStayOnLine(x, buffer, next, fates[1..]);
    }
  }

  /** A read moves bytes from the line to the reader and loses none. */
  lemma ReadStaysOnLine(x: Exchange, buffer: bytes, w: Wire, capacity: nat)
    requires OnLine(x, buffer + w.line, w.peer, w.outbound)
    ensures var r := w.ReadSome(capacity);
            && OnLine(x, buffer + r.data + r.wire.line, r.wire.peer, r.wire.outbound)
            && (r.status != TransportOk ==> r.data == [])
  {
    hide OnLine;
    var r := w.ReadSome(capacity);
    assert buffer + [] == buffer;
    if w.open && w.script != [] {
      var rest := w.(script := w.script[1..]);
      ArrivalsStayOnLine(x, buffer, rest, w.script[0].arrivals);
      var a := rest.Arrive(w.script[0].arrivals);
      assert (buffer + r.data) + r.wire.line == buffer + a.line;
    }
  }

  /** Bytes of one frame are kept until the frame is whole. */
  lemma FeedOfOneFrame(d: HdlcDecoder, input: bytes, f: Frame)
    requires Encodable(f) && f.information == [] && input != []
    requires d.buffer + input <= FrameBytes(f)
    ensures d.Feed(input) == if d.buffer + input == FrameBytes(f) then Pushed([], [f], Done)
                             else Pushed(d.buffer + input, [], NeedMore)
  {
    var b := d.buffer + input;
    if b == FrameBytes(f) {
      ParseUndoesEncode(d.limits, f, []);
      assert b + [] == b && b[|b|..] == [];
      assert Drain(Parser(d.limits), []) == Drained([], [], None);
    } else {
      PrefixIsPartial(d.limits, f, |b|);
    }
  }

  /** Whatever is coming in is the whole answer. */
  lemma InflightIsTheAnswer(x: Exchange, inflight: bytes, p: Peer, outbound: seq<bytes>)
    requires OnLine(x, inflight, p, outbound) && inflight != []
    ensures inflight == x.reply && Encodable(x.answer) && x.answer.information == [] && x.reply == FrameBytes(x.answer)
    ensures Reached(x, [], p, outbound) && OnLine(x, [], p, outbound)
  {}

  /** Reading yields the peer's answer to this frame, or nothing. */
  lemma {:induction false} PullYieldsTheAnswer(x: Exchange, c: Chan)
    requires Exchanging(x, c)
    ensures var r := Pull(c);
            && Exchanging(x, r.chan)
            && r.chan.session == c.session && r.chan.limits == c.limits
            && (r.status == Ok ==>
                  && r.frame == Some(x.answer) && x.reply != []
                  && Reached(x, [], r.chan.wire.peer, r.chan.wire.outbound) && Inflight(r.chan) == [])
    decreases |c.wire.script|
  {
    hide OnLine, Reached, HdlcDecoder.Feed, Wire.ReadSome, FrameBytes;
    ReadStaysOnLine(x, c.decoder.buffer, c.wire, c.capacity);
    var read := c.wire.ReadSome(c.capacity);
    var c1 := c.(wire := read.wire);
    assert read.data == [] ==> c.decoder.buffer + read.data == c.decoder.buffer;
    if read.status == TransportOk && read.data != [] {
      var b := c.decoder.buffer + read.data;
      InflightIsTheAnswer(x, b + read.wire.line, read.wire.peer, read.wire.outbound);
      assert b <= x.reply;
      FeedOfOneFrame(c.decoder, read.data, x.answer);
      if b != x.reply {
        PullYieldsTheAnswer(x, c1.(decoder := c.decoder.(buffer := b)));
      } else {
        assert read.wire.line == [] && [] + read.wire.line == [];
      }
    }
  }

  /** What a successful wait leaves: the line drained except for stale copies,
      and the session changed only in what is acknowledged. */
  ghost predicate Acknowledged(x: Exchange, before: Chan, after: Chan) {
    && x.reply != []
    && Reached(x, [], after.wire.peer, after.wire.outbound) && Inflight(after) == []
    && after.pendingFrames == [] && after.limits == before.limits
    && x.answer.control.ReceiveReady? && after.session == before.session.(va := x.answer.control.nr)
  }

  lemma ControlFrameAcknowledges(x: Exchange, c: Chan)
    requires Exchanging(x, c)
    ensures var r := ReceiveSessionControlFrame(c);
            && Exchanging(x, r.chan)
            && r.chan.limits == c.limits
            && (r.status == Ok ==> Acknowledged(x, c, r.chan))
            && (r.status != Ok ==> r.chan.session == c.session)
  {
    hide OnLine, Pull;
    var p := Note(c, Polled);
    assert Exchanging(x, p);
    PullYieldsTheAnswer(x, p);
  }

  /** After an unsuccessful wait, sleeping and writing the frame again keep
      everything as it was. */
  lemma WriteStaysOnLine(o: ChannelOptions, x: Exchange, c: Chan)
    requires Exchanging(x, c)
    ensures var slept := SleepBeforeRetry(o, c).chan;
            var written := WriteFrameBytes(slept, x.frame).chan;
            && Exchanging(x, slept) && Exchanging(x, written)
            && written.session == c.session && written.limits == c.limits
            && WriteFrameBytes(c, x.frame).chan.session == c.session
            && WriteFrameBytes(c, x.frame).chan.limits == c.limits
            && Exchanging(x, WriteFrameBytes(c, x.frame).chan)
  {}

  lemma {:induction false} WaitAcknowledges(o: ChannelOptions, x: Exchange, c: Chan, attempt: nat)
    requires attempt <= o.hdlcRetryCount && Exchanging(x, c)
    ensures var r := AwaitControlFrame(o, c, x.frame, attempt);
            && Exchanging(x, r.chan)
            && (r.status == Ok ==> Acknowledged(x, c, r.chan))
    decreases o.hdlcRetryCount - attempt
  {
    hide ReceiveSessionControlFrame, WriteFrameBytes, SleepBeforeRetry, Exchanging;
    ControlFrameAcknowledges(x, c);
    var r := ReceiveSessionControlFrame(c);
    if r.status != Ok && IsRetriable(r.status) && attempt < o.hdlcRetryCount {
      WriteStaysOnLine(o, x, r.chan);
      var slept := SleepBeforeRetry(o, r.chan);
      var written := WriteFrameBytes(slept.chan, x.frame);
      if slept.status == Ok && written.status == Ok {
        WaitAcknowledges(o, x, written.chan, attempt + 1);
      }
    }
  }

  // ---------------------------------------------------------------------
  // One chunk
  // ---------------------------------------------------------------------

  /** Nothing is queued or coming in, and nothing still travelling to the peer
      would be answered. */
  ghost predicate LineDrained(c: Chan) {
    && c.pendingFrames == []
    && Inflight(c) == []
    && (forall i :: 0 <= i < |c.wire.outbound| ==> Ignored(c.wire.peer, c.wire.outbound[i]))
  }

  function AcceptedBy(p: Peer): seq<Frame> {
    if p.NoPeer? then [] else p.accepted
  }

  /** Sending `f` to `p`: the peer takes it at most once and answers exactly
      when it takes it. */
  function ExchangeOf(p: Peer, f: Frame): Exchange
    requires Encodable(f)
  {
    var b := FrameBytes(f);
    var r := Respond(p, b);
    var answer := if r.peer.NoPeer? then f else r.peer.session.Outgoing(ReceiveReady(r.peer.session.vr, true), []);
    Exchange(p, b, r.peer, r.reply, answer)
  }

  /** The peer after it has taken the information frame `f`. */
  function Took(p: Peer, f: Frame): Peer
    requires p.AutoPeer? && f.control.Information?
  {
    p.(session := p.session.(vr := Increment(f.control.ns), va := f.control.nr), accepted := p.accepted + [f])
  }

  lemma InformationIsTakenOnce(p: Peer, f: Frame)
    requires Encodable(f) && f.control.Information?
    ensures var x := ExchangeOf(p, f);
            && IsExchange(x)
            && (x.reply != [] ==> x.answer.control == ReceiveReady(Increment(f.control.ns), true))
            && (if x.reply == [] then x.after == p else p.AutoPeer? && x.after == Took(p, f))
  {
    hide FrameBytes, DecodeFrame;
    if p.AutoPeer? {
      DecodeOfEncoded(p.limits, f);
    }
  }

  /** The peer has accepted the first `k` of `fs` on top of `base`. */
  predicate HasAccepted(p: Peer, base: seq<Frame>, fs: seq<Frame>, k: nat) {
    k <= |fs| && AcceptedBy(p) == base + fs[..k]
  }

  /** Sending one frame from a drained line: if it succeeds the peer has
      accepted the frame and the line is drained again; if not, the peer has
      accepted it or not. */
  lemma FrameIsDelivered(o: ChannelOptions, c: Chan, f: Frame)
    requires LineDrained(c) && Encodable(f) && f.control.Information?
    ensures var r := WriteAndAwait(o, c, FrameBytes(f));
            var before, after := AcceptedBy(c.wire.peer), AcceptedBy(r.chan.wire.peer);
            && (after == before || after == before + [f])
            && (r.status == Ok ==>
                  && LineDrained(r.chan) && after == before + [f]
                  && c.wire.peer.AutoPeer? && r.chan.wire.peer == Took(c.wire.peer, f)
                  && r.chan.limits == c.limits && r.chan.session == c.session.(va := Increment(f.control.ns)))
  {
    hide AwaitControlFrame;
    var x := ExchangeOf(c.wire.peer, f);
    InformationIsTakenOnce(c.wire.peer, f);
    assert Waiting(x, [], c.wire.peer, c.wire.outbound);
    WriteStaysOnLine(o, x, c);
    var written := WriteFrameBytes(c, x.frame);
    if written.status == Ok {
      WaitAcknowledges(o, x, written.chan, 0);
    }
  }

  /** On a drained line an extra receive never yields a frame. */
  lemma DrainedLineIsSilent(c: Chan)
    requires LineDrained(c)
    ensures var r := ReceiveSessionControlFrame(c);
            r.status != Ok && AcceptedBy(r.chan.wire.peer) == AcceptedBy(c.wire.peer)
  {
    var x := Exchange(c.wire.peer, [], c.wire.peer, [], Frame(false, Address(0, 0), Address(0, 0), Disconnect, []));
    assert IsExchange(x) by {
      if c.wire.peer.AutoPeer? {
        assert ParseFrame(c.wire.peer.limits, []) == Partial;
      }
    }
    assert Exchanging(x, c);
    ControlFrameAcknowledges(x, c);
  }

  // ---------------------------------------------------------------------
  // A whole LPDU
  // ---------------------------------------------------------------------

  lemma {:induction false} SegmentsIgnoreAcknowledgements(s: Session, va: Mod8, lpdu: bytes, chunk: nat, offset: nat)
    requires offset <= |lpdu| && (offset < |lpdu| ==> chunk > 0)
    ensures Segments(s.(va := va), lpdu, chunk, offset) == Segments(s, lpdu, chunk, offset)
    decreases |lpdu| - offset
  {
    var size := Min(chunk, |lpdu| - offset);
    if offset + size != |lpdu| {
      SegmentsIgnoreAcknowledgements(s.(vs := Increment(s.vs)), va, lpdu, chunk, offset + size);
    }
  }

  /** Extending what was accepted by a frame extends the accepted prefix. */
  lemma AcceptedOneMore(p: Peer, base: seq<Frame>, f: Frame, rest: seq<Frame>, k: nat)
    requires HasAccepted(p, base + [f], rest, k)
    ensures HasAccepted(p, base, [f] + rest, k + 1)
  {
    assert ([f] + rest)[..k + 1] == [f] + rest[..k];
    assert base + ([f] + rest[..k]) == (base + [f]) + rest[..k];
  }

  /** One chunk: on success the peer has accepted its frame and the line is
      drained again; on failure it has accepted it or not. */
  lemma ChunkIsDelivered(o: ChannelOptions, c: Chan, information: bytes, final: bool)
    requires LineDrained(c) && (!final ==> |information| <= c.limits.maximumInformationFieldSize)
    ensures var r := SendChunk(o, c, information, final);
            var f := SegmentFrame(c.session, information, !final, final);
            var before, after := AcceptedBy(c.wire.peer), AcceptedBy(r.chan.wire.peer);
            && (after == before || after == before + [f])
            && (r.status == Ok ==>
                  && LineDrained(r.chan) && after == before + [f]
                  && c.wire.peer.AutoPeer? && r.chan.wire.peer == Took(c.wire.peer, f)
                  && r.chan.limits == c.limits
                  && r.chan.session == c.session.(vs := Increment(c.session.vs), va := Increment(c.session.vs)))
  {
    hide WriteAndAwait, ReceiveSessionControlFrame, Ignored;
    if c.session.CanSendInformationFrame() {
      ReencodingOnlySetsTheBit(c, information, !final, final);
      var built := BuildSessionInformationFrame(c, information, !final, final);
      if built.status == Ok {
        FrameIsDelivered(o, built.chan, SegmentFrame(c.session, information, !final, final));
      }
    } else {
      DrainedLineIsSilent(c);
    }
  }

  /** `d` is `c` after `k` frames, all acknowledged: the sender's numbers have moved
      by `k`, and the peer expects the next one. */
  predicate CaughtUp(c: Chan, d: Chan, k: nat) {
    && d.session == c.session.(vs := (c.session.vs + k) % 8, va := (c.session.vs + k) % 8)
    && c.wire.peer.AutoPeer? && d.wire.peer.AutoPeer? && d.wire.peer.limits == c.wire.peer.limits
    && d.wire.peer.session == c.wire.peer.session.(vr := d.session.vs, va := c.session.vr)
  }

  lemma CaughtUpByOne(c: Chan, d: Chan, f: Frame)
    requires f.control.Information? && f.control.ns == c.session.vs && f.control.nr == c.session.vr
    requires c.wire.peer.AutoPeer? && d.wire.peer == Took(c.wire.peer, f)
    requires d.session == c.session.(vs := Increment(c.session.vs), va := Increment(c.session.vs))
    ensures CaughtUp(c, d, 1)
  {}

  lemma CaughtUpByMore(c: Chan, d: Chan, e: Chan, k: nat)
    requires CaughtUp(c, d, 1) && CaughtUp(d, e, k)
    ensures CaughtUp(c, e, k + 1)
  {}

  /** However a send of the remaining chunks ends, the peer has accepted a
      prefix of their segments, each once and in order; if it ends well, it
      has accepted them all and the line is drained. `k` is how many. */
  lemma {:induction false} ChunksAreDelivered(
    o: ChannelOptions, c: Chan, lpdu: bytes, chunk: nat, count: nat, i: nat, offset: nat) returns (k: nat)
    requires LineDrained(c) && i < count && offset <= |lpdu| && (offset < |lpdu| ==> chunk > 0)
    requires count - i == FramesLeft(|lpdu| - offset, chunk) && (offset == |lpdu| ==> lpdu == [])
    requires |lpdu| - offset > chunk ==> chunk <= c.limits.maximumInformationFieldSize
    ensures var r := SendChunks(o, c, lpdu, chunk, count, i, offset);
            var fs := Segments(c.session, lpdu, chunk, offset);
            && HasAccepted(r.chan.wire.peer, AcceptedBy(c.wire.peer), fs, k)
            && (r.status == Ok ==>
                  && k == |fs| && LineDrained(r.chan) && CaughtUp(c, r.chan, k))
    decreases count - i
  {
    hide LineDrained, SendChunk, FramesLeft, Session.Remote, Session.Local, AcceptedBy, CaughtUp;
    var size := CurrentSize(lpdu, chunk, offset);
    var final := i + 1 == count;
    FinalByCount(|lpdu| - offset, chunk);
    var f := SegmentFrame(c.session, lpdu[offset..offset + size], !final, final);
    assert Segments(c.session, lpdu, chunk, offset)[0] == f;
    ChunkIsDelivered(o, c, lpdu[offset..offset + size], final);
    var sent := SendChunk(o, c, lpdu[offset..offset + size], final);
    k := if AcceptedBy(sent.chan.wire.peer) == AcceptedBy(c.wire.peer) + [f] then 1 else 0;
    if sent.status == Ok {
      CaughtUpByOne(c, sent.chan, f);
    }
    if sent.status == Ok && !final {
      var next := c.session.(vs := Increment(c.session.vs));
      SegmentsIgnoreAcknowledgements(next, sent.chan.session.va, lpdu, chunk, offset + size);
      k := ChunksAreDelivered(o, sent.chan, lpdu, chunk, count, i + 1, offset + size);
      AcceptedOneMore(SendChunks(o, sent.chan, lpdu, chunk, count, i + 1, offset + size).chan.wire.peer,
                      AcceptedBy(c.wire.peer), f, Segments(next, lpdu, chunk, offset + size), k);
      if SendChunks(o, sent.chan, lpdu, chunk, count, i + 1, offset + size).status == Ok {
        CaughtUpByMore(c, sent.chan, SendChunks(o, sent.chan, lpdu, chunk, count, i + 1, offset + size).chan, k);
      }
      k := k + 1;
    }
  }

  /** Counting frames and measuring bytes agree on which frame is the last. */
  lemma FinalByCount(left: nat, chunk: nat)
    requires left > 0 ==> chunk > 0
    ensures FramesLeft(left, chunk) == if left <= chunk then 1 else 1 + FramesLeft(left - chunk, chunk)
    ensures left > chunk ==> FramesLeft(left - chunk, chunk) >= 1
  {
    if left > chunk {
      OneMoreChunk(left, chunk);
      AtLeastOneChunk(left - chunk, chunk);
    } else if left > 0 {
      QuotientIs(left + chunk - 1, chunk, 1, left - 1);
    }
  }

  lemma AtLeastOneChunk(left: nat, chunk: nat)
    requires left > 0 && chunk > 0
    ensures (left + chunk - 1) / chunk >= 1
  {
    var a := left + chunk - 1;
    QuotientIs(a, chunk, a / chunk, a % chunk);
  }

  /** The ceiling division of the source is exact as long as its sum fits the
      size type; beyond that it always yields zero frames. */
  lemma FrameCountIsExactUnlessItOverflows(size: nat, chunk: nat)
    requires 0 < size < SIZE_MODULUS && 0 < chunk < SIZE_MODULUS
    ensures if size + chunk - 1 < SIZE_MODULUS then FrameCount(size, chunk) == FramesLeft(size, chunk) >= 1
            else FrameCount(size, chunk) == 0
  {
    var sum := size + chunk - 1;
    if sum < SIZE_MODULUS {
      QuotientIs(sum, chunk, sum / chunk, sum % chunk);
      FinalByCount(size, chunk);
    } else {
      assert sum % SIZE_MODULUS == sum - SIZE_MODULUS < chunk;
      QuotientIs(sum - SIZE_MODULUS, chunk, 0, sum - SIZE_MODULUS);
    }
  }

  predicate CountFits(c: Chan, lpdu: bytes) {
    |lpdu| + ChunkSize(c, lpdu) - 1 < SIZE_MODULUS
  }

  /** Stop-and-wait delivery. On a drained line, whatever frames and replies are
      lost or delayed and however reads are cut: the peer accepts a prefix of
      the segments of the LPDU, each once and in order; if the send returns Ok
      it has accepted all of them, the line is drained again, nothing is
      unacknowledged and the peer expects the sender's next number. */
  lemma SendIsDelivered(o: ChannelOptions, c: Chan, lpdu: bytes) returns (k: nat)
    requires c.session.state == Connected && LineDrained(c)
    requires |lpdu| < SIZE_MODULUS && CountFits(c, lpdu)
    ensures var r := SendSessionInformation(o, c, lpdu);
            var fs := Segments(c.session, lpdu, ChunkSize(c, lpdu), 0);
            && HasAccepted(r.chan.wire.peer, AcceptedBy(c.wire.peer), fs, k)
            && (r.status == Ok ==>
                  && k == |fs| && LineDrained(r.chan) && CaughtUp(c, r.chan, k))
  {
    hide LineDrained, SendChunks, AcceptedBy, CaughtUp, Segments;
    var chunk := ChunkSize(c, lpdu);
    if lpdu != [] {
      FrameCountIsExactUnlessItOverflows(|lpdu|, chunk);
    }
    var d := InstallLimit(c);
    LimitsDoNotMatter(c, d.limits);
    k := ChunksAreDelivered(o, d, lpdu, chunk, FrameCount(|lpdu|, chunk), 0, 0);
    CaughtUpFrom(c, d.limits, SendSessionInformation(o, c, lpdu).chan, k);
  }

  lemma LimitsDoNotMatter(c: Chan, limits: CodecLimits)
    requires LineDrained(c)
    ensures LineDrained(c.(limits := limits))
  {}

  lemma CaughtUpFrom(c: Chan, limits: CodecLimits, d: Chan, k: nat)
    ensures CaughtUp(c.(limits := limits), d, k) == CaughtUp(c, d, k)
  {}

  /** A send that returns Ok has delivered the LPDU exactly when the frame count
      did not overflow. */
  lemma OkMeansDeliveredUnlessOverflow(o: ChannelOptions, c: Chan, lpdu: bytes)
    requires c.session.state == Connected && LineDrained(c) && 0 < |lpdu| < SIZE_MODULUS
    requires SendSessionInformation(o, c, lpdu).status == Ok
    ensures var fs := Segments(c.session, lpdu, ChunkSize(c, lpdu), 0);
            AcceptedBy(SendSessionInformation(o, c, lpdu).chan.wire.peer) == AcceptedBy(c.wire.peer) + fs
            <==> CountFits(c, lpdu)
  {
    var chunk := ChunkSize(c, lpdu);
    var fs := Segments(c.session, lpdu, chunk, 0);
    if CountFits(c, lpdu) {
      var k := SendIsDelivered(o, c, lpdu);
      assert fs[..|fs|] == fs;
    } else {
      FrameCountIsExactUnlessItOverflows(|lpdu|, chunk);
      assert |AcceptedBy(c.wire.peer) + fs| > |AcceptedBy(c.wire.peer)|;
    }
  }

  /** The overflow is reachable: with the largest chunk size, sending an empty
      APDU returns Ok although nothing was written. */
  lemma OverflowingSendWritesNothing(o: ChannelOptions, c: Chan)
    requires o.hdlcUseSession && c.session.state == Connected
    requires c.session.options.negotiation.maxInformationTransmit == SIZE_MODULUS - 1
    ensures var r := SendApdu(o, c, View([]));
            r.status == Ok && r.chan.wire == c.wire
  {
    FrameCountIsExactUnlessItOverflows(LlcCodec.HEADER_SIZE, SIZE_MODULUS - 1);
  }

  // ---------------------------------------------------------------------
  // Many sends
  // ---------------------------------------------------------------------

  /** Reads a stream of accepted frames the way a receiver must: segmented
      fields are joined until an unsegmented one completes the LPDU. */
  function Lpdus(frames: seq<Frame>, partial: bytes): seq<bytes>
    decreases |frames|
  {
    if frames == [] then []
    else
      var joined := partial + frames[0].information;
      if frames[0].segmented then Lpdus(frames[1..], joined) else [joined] + Lpdus(frames[1..], [])
  }

  lemma NothingReadsBack()
    ensures Lpdus([], []) == []
  {}

  lemma {:induction false} SegmentsReadBack(s: Session, lpdu: bytes, chunk: nat, offset: nat, later: seq<Frame>)
    requires offset <= |lpdu| && (offset < |lpdu| ==> chunk > 0)
    ensures Lpdus(Segments(s, lpdu, chunk, offset) + later, lpdu[..offset]) == [lpdu] + Lpdus(later, [])
    decreases |lpdu| - offset
  {
    var size := Min(chunk, |lpdu| - offset);
    var fs := Segments(s, lpdu, chunk, offset);
    assert lpdu[..offset] + lpdu[offset..offset + size] == lpdu[..offset + size];
    if offset + size == |lpdu| {
      assert lpdu[..offset + size] == lpdu;
      assert (fs + later)[1..] == later;
    } else {
      var rest := Segments(s.(vs := Increment(s.vs)), lpdu, chunk, offset + size);
      assert (fs + later)[1..] == rest + later;
      SegmentsReadBack(s.(vs := Increment(s.vs)), lpdu, chunk, offset + size, later);
    }
  }

  function LpdusOf(o: ChannelOptions, apdus: seq<bytes>): seq<bytes> {
    seq(|apdus|, i requires 0 <= i < |apdus| => LlcCodec.Header(o.hdlcDirection) + apdus[i])
  }

  function Sends(apdus: seq<bytes>): seq<Call> {
    seq(|apdus|, i requires 0 <= i < |apdus| => CallSend(View(apdus[i])))
  }

  lemma FirstOfSends(o: ChannelOptions, c: Chan, apdus: seq<bytes>)
    requires apdus != []
    ensures var sent := SendApdu(o, c, View(apdus[0]));
            var run, rest := Run(o, c, Sends(apdus)), Run(o, sent.chan, Sends(apdus[1..]));
            && run.chan == rest.chan
            && (AllOk(run.outcomes) ==> sent.status == Ok && AllOk(rest.outcomes))
            && LpdusOf(o, apdus) == [LlcCodec.Header(o.hdlcDirection) + apdus[0]] + LpdusOf(o, apdus[1..])
  {
    assert Sends(apdus)[1..] == Sends(apdus[1..]);
    var sent := SendApdu(o, c, View(apdus[0]));
    var rest := Run(o, sent.chan, Sends(apdus[1..]));
    var run := Run(o, c, Sends(apdus));
    assert run.outcomes == [Outcome(sent.status, [])] + rest.outcomes && run.outcomes[0].status == sent.status;
    assert forall i :: 0 <= i < |rest.outcomes| ==> rest.outcomes[i] == run.outcomes[i + 1];
  }

  /** In session mode an accepted APDU goes out behind its LLC header. */
  lemma SendApduSendsLpdu(o: ChannelOptions, c: Chan, apdu: bytes)
    requires o.hdlcUseSession && SendApdu(o, c, View(apdu)).status == Ok
    ensures var lpdu := LlcCodec.Header(o.hdlcDirection) + apdu;
            && |lpdu| < SIZE_MODULUS && c.session.state == Connected
            && SendApdu(o, c, View(apdu)) == SendSessionInformation(o, c, lpdu)
  {}

  /** If every one of a list of sends returns Ok, what the peer has accepted
      since then reads as exactly the APDUs, each behind its LLC header. */
  lemma {:induction false} SendsAreDelivered(o: ChannelOptions, c: Chan, apdus: seq<bytes>) returns (got: seq<Frame>)
    requires o.hdlcUseSession && LineDrained(c)
    requires forall i :: 0 <= i < |apdus| ==> CountFits(c, LpdusOf(o, apdus)[i])
    requires AllOk(Run(o, c, Sends(apdus)).outcomes)
    ensures var end := Run(o, c, Sends(apdus)).chan;
            && AcceptedBy(end.wire.peer) == AcceptedBy(c.wire.peer) + got
            && Lpdus(got, []) == LpdusOf(o, apdus)
            && LineDrained(end)
    decreases |apdus|
  {
    hide LineDrained, SendSessionInformation, SendApdu, AcceptedBy, AllOk, Lpdus, Segments;
    if apdus == [] {
      got := [];
      NothingReadsBack();
      assert AcceptedBy(c.wire.peer) + [] == AcceptedBy(c.wire.peer);
      return;
    }
    var lpdu := LlcCodec.Header(o.hdlcDirection) + apdus[0];
    var sent := SendApdu(o, c, View(apdus[0]));
    FirstOfSends(o, c, apdus);
    SendApduSendsLpdu(o, c, apdus[0]);
    assert CountFits(c, LpdusOf(o, apdus)[0]);
    var k := SendIsDelivered(o, c, lpdu);
    var fs := Segments(c.session, lpdu, ChunkSize(c, lpdu), 0);
    assert fs[..|fs|] == fs && lpdu[..0] == [];
    forall i | 0 <= i < |apdus| - 1 ensures CountFits(sent.chan, LpdusOf(o, apdus[1..])[i]) {
      assert CountFits(c, LpdusOf(o, apdus)[i + 1]);
    }
    var rest := SendsAreDelivered(o, sent.chan, apdus[1..]);
    SegmentsReadBack(c.session, lpdu, ChunkSize(c, lpdu), 0, rest);
    got := fs + rest;
    assert (AcceptedBy(c.wire.peer) + fs) + rest == AcceptedBy(c.wire.peer) + got;
  }
}
