/** What a receiver gets from the bytes on its line: independence of how they
    are cut into reads, round trips without a session, and reassembly with one. */
module HdlcReceive {
  import opened Basics
  import opened Statuses
  import opened StreamDecoding
  import opened HdlcCodec
  import opened HdlcSession
  import opened ProfileTypes
  import opened Transport
  import opened HdlcChannelSpec
  import opened HdlcBooks
  import HdlcDelivery
  import LlcCodec

  /** Every frame still to be handed over: the queued ones, then those in the bytes. */
  function Upcoming(c: Chan): seq<Frame> {
    c.pendingFrames + Ahead(c).frames
  }

  function Ahead(c: Chan): Drained<Frame, HdlcStatus> {
    Decode(c.decoder.limits, c.decoder.buffer + c.wire.line)
  }

  /** A line on which no peer reacts and which holds no malformed frame; the
      decoder holds no complete one. */
  predicate CleanLine(c: Chan) {
    c.wire.peer.NoPeer? && Ahead(c).error.None? && Dry(c.decoder)
  }

  /** A receive of one frame touches nothing but the stream and the frame queue. */
  predicate OnlyReceives(c: Chan, d: Chan) {
    && d == c.(decoder := d.decoder, pendingFrames := d.pendingFrames, wire := d.wire, log := d.log)
    && d.decoder.limits == c.decoder.limits
    && d.wire == c.wire.(line := d.wire.line, script := d.wire.script, outbound := d.wire.outbound)
  }

  /** A line that carries encoded frames to a fresh decoder. */
  lemma FramesAreUpcoming(c: Chan, frames: seq<Frame>)
    requires c.decoder.buffer == [] && c.pendingFrames == [] && c.wire.peer.NoPeer?
    requires forall i :: 0 <= i < |frames| ==>
               Encodable(frames[i]) && |frames[i].information| <= c.decoder.limits.maximumInformationFieldSize
    requires c.wire.line == Concat(FramesBytes(frames))
    ensures CleanLine(c) && Upcoming(c) == frames
  {
    hide FramesBytes, Decode;
    DecodeUndoesEncode(c.decoder.limits, frames);
    NothingInNothing(c.decoder.limits);
    assert [] + c.wire.line == c.wire.line && [] + frames == frames;
  }

  lemma PushTakesFromAhead(c: Chan, input: bytes, wire: Wire)
    requires CleanLine(c) && c.pendingFrames == [] && input != []
    requires wire.peer.NoPeer? && input + wire.line == c.wire.line
    ensures var pushed := c.decoder.Feed(input);
            var d := c.(wire := wire, decoder := c.decoder.(buffer := pushed.buffer));
            && !pushed.verdict.Failed?
            && CleanLine(d) && Upcoming(c) == pushed.frames + Ahead(d).frames
  {
    hide Decode, HdlcDecoder.Feed;
    FeedConserves(c.decoder, input, wire.line);
    assert [] + Ahead(c).frames == Ahead(c).frames;
    var d := c.(wire := wire, decoder := c.decoder.(buffer := c.decoder.Feed(input).buffer));
    assert [] + Ahead(d).frames == Ahead(d).frames;
  }

  lemma {:induction false} PullTakesInOrder(c: Chan)
    requires CleanLine(c) && c.pendingFrames == []
    ensures var r := Pull(c);
            && CleanLine(r.chan) && OnlyReceives(c, r.chan)
            && Upcoming(c) == (if r.status == Ok then [r.frame.value] else []) + Upcoming(r.chan)
    decreases |c.wire.script|
  {
    hide HdlcDecoder.Feed, Wire.ReadSome, Decode;
    ReadConserves(c.wire, c.capacity);
    var read := c.wire.ReadSome(c.capacity);
    var c1 := c.(wire := read.wire);
    assert c.decoder.buffer + ([] + read.wire.line) == c.decoder.buffer + read.wire.line;
    if read.status == TransportOk && read.data != [] {
      PushTakesFromAhead(c, read.data, read.wire);
      var pushed := c.decoder.Feed(read.data);
      var d := c1.(decoder := c.decoder.(buffer := pushed.buffer));
      if pushed.frames != [] {
        assert pushed.frames == [pushed.frames[0]] + pushed.frames[1..];
      }
      if pushed.verdict.NeedMore? {
        NothingWithoutVerdict(c.decoder, read.data);
        PullTakesInOrder(d);
      }
    }
  }

  lemma NothingWithoutVerdict(d: HdlcDecoder, input: bytes)
    ensures d.Feed(input).verdict.NeedMore? ==> d.Feed(input).frames == []
  {}

  /** Frames are handed over one at a time, in the order of the line, whatever
      the reads look like; a receive that fails takes none. */
  lemma FramesComeInOrder(c: Chan)
    requires CleanLine(c)
    ensures var r := ReceiveDecodedFrame(c);
            && CleanLine(r.chan) && OnlyReceives(c, r.chan)
            && Upcoming(c) == (if r.status == Ok then [r.frame.value] else []) + Upcoming(r.chan)
  {
    hide Pull, Decode;
    if c.pendingFrames == [] {
      PullTakesInOrder(c);
    } else {
      assert c.pendingFrames == [c.pendingFrames[0]] + c.pendingFrames[1..];
    }
  }

  // ---------------------------------------------------------------------
  // Without a session
  // ---------------------------------------------------------------------

  /** The APDUs a receiver can still get. */
  function Remaining(o: ChannelOptions, c: Chan): seq<bytes> {
    c.pendingApdus + ApdusIn(o, Upcoming(c))
  }

  lemma DecodingQueuesItsApdu(o: ChannelOptions, c: Chan, f: Frame)
    requires !o.hdlcUseSession
    ensures var d := DecodeFrameToPendingApdu(o, c, f).chan;
            d == c.(pendingApdus := c.pendingApdus + ApduOf(o, f), log := d.log)
  {
    assert c.pendingApdus + [] == c.pendingApdus;
  }

  lemma {:induction false} NextApduConserves(o: ChannelOptions, c: Chan)
    requires !o.hdlcUseSession && CleanLine(c) && c.pendingApdus == []
    ensures var r := ReceiveNextApdu(o, c);
            && CleanLine(r.chan) && Remaining(o, r.chan) == Remaining(o, c)
    decreases |c.wire.script|, |c.pendingFrames|
  {
    hide ReceiveDecodedFrame, DecodeFrameToPendingApdu, ApduOf, Decode;
    FramesComeInOrder(c);
    var received := ReceiveDecodedFrame(c);
    assert [] + Upcoming(received.chan) == Upcoming(received.chan);
    if received.status == Ok {
      var f := received.frame.value;
      DecodingQueuesItsApdu(o, received.chan, f);
      var r := DecodeFrameToPendingApdu(o, received.chan, f);
      ApdusInSplit(o, [f], Upcoming(received.chan));
      assert ApdusIn(o, [f]) == ApduOf(o, f) + ApdusIn(o, []);
      assert Upcoming(r.chan) == Upcoming(received.chan);
      if r.chan.pendingApdus == [] && (r.status == NeedMoreData || r.status == Ok) {
        NextApduConserves(o, r.chan);
      }
      NeedMoreQueuesNothing(o, received.chan, f);
    }
  }

  lemma NeedMoreQueuesNothing(o: ChannelOptions, c: Chan, f: Frame)
    requires !o.hdlcUseSession && c.pendingApdus == []
    ensures DecodeFrameToPendingApdu(o, c, f).status == NeedMoreData ==>
              DecodeFrameToPendingApdu(o, c, f).chan.pendingApdus == []
  {}

  lemma ReceiveConserves(o: ChannelOptions, c: Chan, valid: bool, size: nat)
    requires !o.hdlcUseSession && CleanLine(c)
    ensures var v, b := Received(ReceiveApdu(o, c)), Received(ReceiveApduInto(o, c, valid, size));
            && CleanLine(v.chan) && Remaining(o, c) == v.outcome.returned + Remaining(o, v.chan)
            && CleanLine(b.chan) && Remaining(o, c) == b.outcome.returned + Remaining(o, b.chan)
  {
    hide ReceiveNextApdu, ApdusIn, Decode;
    assert [] + Remaining(o, c) == Remaining(o, c);
    if c.pendingApdus == [] {
      NextApduConserves(o, c);
    }
    var d := Await(o, c).chan;
    assert [] + Remaining(o, d) == Remaining(o, d);
    if d.pendingApdus != [] {
      assert d.pendingApdus == [d.pendingApdus[0]] + d.pendingApdus[1..];
    }
  }

  lemma CallConserves(o: ChannelOptions, c: Chan, call: Call)
    requires !o.hdlcUseSession && CleanLine(c) && call != CallClose
    ensures var step := Apply(o, c, call);
            && CleanLine(step.chan)
            && Remaining(o, c) == step.outcome.returned + Remaining(o, step.chan)
  {
    hide ReceiveApdu, ReceiveApduInto, ApdusIn, Decode, BuildFrame;
    assert [] + Remaining(o, c) == Remaining(o, c);
    match call
    case CallReceive => ReceiveConserves(o, c, true, 0);
    case CallReceiveInto(valid, size) => ReceiveConserves(o, c, valid, size);
    case _ =>
  }

  /** Without a session, however the line is cut into reads, whatever fails in
      between and whichever receive forms are used: the APDUs returned so far,
      then those still to come, are those carried by the frames on the line. */
  lemma {:induction false} RunConserves(o: ChannelOptions, c: Chan, calls: seq<Call>)
    requires !o.hdlcUseSession && CleanLine(c) && CallClose !in calls
    ensures var run := Run(o, c, calls);
            && CleanLine(run.chan)
            && Remaining(o, c) == AllReturned(run.outcomes) + Remaining(o, run.chan)
    decreases |calls|
  {
    hide Apply, CleanLine, Remaining;
    if calls != [] {
      CallConserves(o, c, calls[0]);
      RunConserves(o, Apply(o, c, calls[0]).chan, calls[1..]);
    }
  }

  /** The frame a session-less send writes for an APDU. */
  function PlainFrame(o: ChannelOptions, apdu: bytes): Frame {
    var client := Address(o.hdlcClientAddress, 0);
    var server := Address(o.hdlcLogicalDeviceAddress, o.hdlcPhysicalDeviceAddress);
    var toClient := o.hdlcDirection == LlcCodec.ServerToClient;
    Frame(false, if toClient then client else server, if toClient then server else client,
          Information(0, 0, true), LlcCodec.Header(o.hdlcDirection) + apdu)
  }

  function PlainFrames(o: ChannelOptions, apdus: seq<bytes>): seq<Frame> {
    seq(|apdus|, i requires 0 <= i < |apdus| => PlainFrame(o, apdus[i]))
  }

  lemma PlainSendWritesOneFrame(o: ChannelOptions, c: Chan, apdu: bytes)
    requires !o.hdlcUseSession && SendApdu(o, c, View(apdu)).status == Ok
    ensures var f := PlainFrame(o, apdu);
            var d := SendApdu(o, c, View(apdu)).chan;
            && Encodable(f) && |f.information| <= c.limits.maximumInformationFieldSize
            && WithinMaximum(o, |apdu|)
            && d.wire.writes == c.wire.writes + [FrameBytes(f)] && d.limits == c.limits
  {
    assert DecodeControl(PLAIN_CONTROL) == Some(Information(0, 0, true));
  }

  lemma NoSends(o: ChannelOptions, c: Chan)
    ensures Run(o, c, HdlcDelivery.Sends([])).chan == c
  {}

  /** Every successful send of a list writes exactly its own frame. */
  lemma {:induction false} PlainSendsWriteFrames(o: ChannelOptions, c: Chan, apdus: seq<bytes>)
    requires !o.hdlcUseSession && AllOk(Run(o, c, HdlcDelivery.Sends(apdus)).outcomes)
    ensures var d := Run(o, c, HdlcDelivery.Sends(apdus)).chan;
            var fs := PlainFrames(o, apdus);
            && (forall i :: 0 <= i < |fs| ==>
                  Encodable(fs[i]) && |fs[i].information| <= c.limits.maximumInformationFieldSize)
            && (forall i :: 0 <= i < |apdus| ==> WithinMaximum(o, |apdus[i]|))
            && d.wire.writes == c.wire.writes + FramesBytes(fs)
    decreases |apdus|
  {
    hide SendApdu, FrameBytes, PlainFrame, Run, WithinMaximum;
    if apdus == [] {
      NoSends(o, c);
      assert c.wire.writes + [] == c.wire.writes;
    } else {
      HdlcDelivery.FirstOfSends(o, c, apdus);
      PlainSendWritesOneFrame(o, c, apdus[0]);
      var d := SendApdu(o, c, View(apdus[0])).chan;
      PlainSendsWriteFrames(o, d, apdus[1..]);
      var fs, rest := PlainFrames(o, apdus), PlainFrames(o, apdus[1..]);
      assert forall i :: 0 < i < |fs| ==> fs[i] == rest[i - 1] && apdus[i] == apdus[1..][i - 1];
      assert FramesBytes(fs) == [FrameBytes(fs[0])] + FramesBytes(rest);
      assert c.wire.writes + [FrameBytes(fs[0])] + FramesBytes(rest) == c.wire.writes + FramesBytes(fs);
    }
  }

  lemma {:induction false} PlainFramesCarryApdus(o: ChannelOptions, apdus: seq<bytes>)
    requires forall i :: 0 <= i < |apdus| ==> WithinMaximum(o, |apdus[i]|)
    ensures ApdusIn(o, PlainFrames(o, apdus)) == apdus
    decreases |apdus|
  {
    if apdus != [] {
      assert PlainFrames(o, apdus)[1..] == PlainFrames(o, apdus[1..]);
      PlainFramesCarryApdus(o, apdus[1..]);
      assert (LlcCodec.Header(o.hdlcDirection) + apdus[0])[LlcCodec.HEADER_SIZE..] == apdus[0];
      assert ApduOf(o, PlainFrame(o, apdus[0])) == [apdus[0]];
      assert apdus == [apdus[0]] + apdus[1..];
    }
  }

  /** Round trip without a session. If every send of a list returned Ok, then a
      channel with the same options whose line carries what was written returns
      exactly those APDUs in order, however its reads are cut. */
  lemma PlainRoundTrip(o: ChannelOptions, a: Chan, apdus: seq<bytes>, b: Chan, calls: seq<Call>)
    requires !o.hdlcUseSession && AllOk(Run(o, a, HdlcDelivery.Sends(apdus)).outcomes)
    requires a.wire.writes == [] && a.limits == b.decoder.limits
    requires b.decoder.buffer == [] && b.pendingFrames == [] && b.pendingApdus == [] && b.wire.peer.NoPeer?
    requires b.wire.line == Concat(Run(o, a, HdlcDelivery.Sends(apdus)).chan.wire.writes)
    requires CallClose !in calls
    ensures var run := Run(o, b, calls);
            && apdus == AllReturned(run.outcomes) + Remaining(o, run.chan)
            && (run.chan.wire.line == [] && run.chan.pendingFrames == [] && run.chan.pendingApdus == [] ==>
                  AllReturned(run.outcomes) == apdus)
  {
    hide Run, FramesBytes, Decode;
    PlainSendsWriteFrames(o, a, apdus);
    var fs := PlainFrames(o, apdus);
    assert [] + FramesBytes(fs) == FramesBytes(fs);
    PlainFramesCarryApdus(o, apdus);
    FramesAreUpcoming(b, fs);
    assert Remaining(o, b) == apdus;
    RunConserves(o, b, calls);
    var d := Run(o, b, calls).chan;
    assert d.decoder.buffer + [] == d.decoder.buffer;
  }

  /** What a channel without a session returns after a `Close`, even one that
      fails, comes from the bytes read afterwards. */
  lemma ReturnsAfterClose(o: ChannelOptions, c: Chan, frames: seq<Frame>, calls: seq<Call>)
    requires !o.hdlcUseSession && c.wire.peer.NoPeer? && CallClose !in calls
    requires forall i :: 0 <= i < |frames| ==>
               Encodable(frames[i]) && |frames[i].information| <= c.decoder.limits.maximumInformationFieldSize
    requires c.wire.line == Concat(FramesBytes(frames))
    ensures var d := Close(c).chan;
            && d.reassembler.partial == None && d.session == c.session
            && AllReturned(Run(o, d, calls).outcomes) <= ApdusIn(o, frames)
  {
    hide Run, FramesBytes, ApdusIn, Upcoming, CleanLine;
    var d := Close(c).chan;
    FramesAreUpcoming(d, frames);
    assert Remaining(o, d) == ApdusIn(o, frames);
    RunConserves(o, d, calls);
  }

  /** With room for the APDU the caller-buffer form is the vector form; with too
      little room it keeps the APDU at the head of the queue. */
  lemma ReceiveFormsAgree(o: ChannelOptions, c: Chan, size: nat)
    ensures var v, b := ReceiveApdu(o, c), ReceiveApduInto(o, c, true, size);
            if v.status == Ok && size < |v.apdu| then
              && b.status == OutputBufferTooSmall
              && b.chan.pendingApdus == [v.apdu] + v.chan.pendingApdus
              && v.chan == Note(b.chan, Returned(v.apdu)).(pendingApdus := v.chan.pendingApdus)
            else b == v
  {
    hide ReceiveNextApdu;
    var d := Await(o, c).chan;
    if d.pendingApdus != [] {
      assert d.pendingApdus == [d.pendingApdus[0]] + d.pendingApdus[1..];
    }
  }

  // ---------------------------------------------------------------------
  // With a session: reassembly
  // ---------------------------------------------------------------------

  /** One information field cut into segments that share address and control
      field: all but the last are marked as segmented. */
  predicate IsSegmentation(segments: seq<Frame>) {
    && segments != []
    && segments[0].control.Information?
    && (forall i :: 0 <= i < |segments| ==>
          Reassembler.SameLink(segments[0], segments[i]) && segments[i].segmented == (i < |segments| - 1))
  }

  function Gathered(segments: seq<Frame>, k: nat): bytes
    requires k <= |segments|
  {
    Concat(HdlcDelivery.Informations(segments[..k]))
  }

  /** The reassembler after `k` of the segments. */
  function Absorbed(segments: seq<Frame>, k: nat): Option<Frame>
    requires k < |segments|
  {
    if k == 0 then None else Some(segments[k - 1].(information := Gathered(segments, k)))
  }

  /** The session takes frames with this control field as the next in sequence. */
  predicate Expects(s: Session, f: Frame) {
    && s.state == Connected && f.destination == s.Local() && f.source == s.Remote()
    && f.control.Information? && f.control.ns == s.vr && s.AcknowledgesSent(f.control.nr)
  }

  /** The APDU behind `segments` is on its way: `k` segments are in the
      reassembler, the others are the next frames of the line. */
  predicate Underway(o: ChannelOptions, c: Chan, segments: seq<Frame>, apdu: bytes, later: seq<Frame>, k: nat) {
    && o.hdlcUseSession && CleanLine(c) && IsSegmentation(segments) && k < |segments|
    && c.pendingApdus == [] && c.reassembler.partial == Absorbed(segments, k)
    && Upcoming(c) == segments[k..] + later
    && Expects(c.session, segments[0])
    && LlcCodec.DecodeLpdu(Gathered(segments, |segments|)) == LlcCodec.Success(apdu)
    && |Gathered(segments, |segments|)| <= c.reassembler.maximumSize && WithinMaximum(o, |apdu|)
    && c.wire.open && c.wire.writeResults == []
  }

  /** The receive-ready frame that acknowledges the field. */
  function Receipt(s: Session): Frame {
    s.Outgoing(ReceiveReady(Increment(s.vr), true), [])
  }

  /** The APDU is queued, the session has advanced by one frame, one receipt was
      written, and the rest of the line is untouched. */
  predicate Complete(c: Chan, d: Chan, segments: seq<Frame>, apdu: bytes, later: seq<Frame>) {
    && CleanLine(d) && d.pendingApdus == [apdu] && Upcoming(d) == later
    && d.reassembler == c.reassembler.(partial := None) && d.wire.open && d.wire.writeResults == []
    && segments != [] && segments[0].control.Information?
    && d.session == c.session.(vr := Increment(c.session.vr), va := segments[0].control.nr)
    && d.wire.writes == c.wire.writes + [FrameBytes(Receipt(c.session))]
  }

  lemma GatheredOneMore(segments: seq<Frame>, k: nat)
    requires k < |segments|
    ensures Gathered(segments, k + 1) == Gathered(segments, k) + segments[k].information
    ensures Gathered(segments, 0) == []
  {
    assert segments[..k + 1] == segments[..k] + [segments[k]];
    assert HdlcDelivery.Informations(segments[..k + 1])
        == HdlcDelivery.Informations(segments[..k]) + [segments[k].information];
    ConcatAppend(HdlcDelivery.Informations(segments[..k]), segments[k].information);
  }

  lemma {:induction false} GatheredGrows(segments: seq<Frame>, k: nat, m: nat)
    requires k <= m <= |segments|
    ensures |Gathered(segments, k)| <= |Gathered(segments, m)|
    decreases m - k
  {
    if k < m {
      GatheredOneMore(segments, k);
      GatheredGrows(segments, k + 1, m);
    }
  }

  /** The reassembler takes segment `k` and, at the last one, gives the whole field. */
  lemma ReassemblerAbsorbs(r: Reassembler, segments: seq<Frame>, k: nat)
    requires IsSegmentation(segments) && k < |segments|
    requires r.partial == Absorbed(segments, k)
    requires |Gathered(segments, |segments|)| <= r.maximumSize
    ensures var p := r.PushFrame(segments[k]);
            if k + 1 < |segments| then
              p.status == HdlcSegmentationIncomplete && p.reassembler == r.(partial := Absorbed(segments, k + 1))
            else
              && p.status == HdlcOk && p.hasCompleted && p.reassembler == r.(partial := None)
              && p.completed == segments[k].(information := Gathered(segments, |segments|))
  {
    hide Gathered;
    GatheredOneMore(segments, k);
    GatheredGrows(segments, k + 1, |segments|);
    assert [] + segments[k].information == segments[k].information;
    assert Reassembler.SameLink(segments[0], segments[k]);
    if k > 0 {
      assert Reassembler.SameLink(segments[0], segments[k - 1]);
    }
  }

  /** Nothing was written, the session did not move, and the reassembler has its size. */
  predicate Unmoved(c: Chan, d: Chan) {
    && d.session == c.session && d.wire.writes == c.wire.writes
    && d.reassembler.maximumSize == c.reassembler.maximumSize
  }

  /** Decoding the next segment. */
  lemma SegmentIsDecoded(
    o: ChannelOptions, c: Chan, segments: seq<Frame>, apdu: bytes, later: seq<Frame>, k: nat, c0: Chan)
    requires Underway(o, c0, segments, apdu, later, k) && OnlyReceives(c0, c)
    requires CleanLine(c) && Upcoming(c) == segments[k + 1..] + later
    ensures var r := DecodeFrameToPendingApdu(o, c, segments[k]);
            if k + 1 < |segments| then
              && r.status == NeedMoreData && Underway(o, r.chan, segments, apdu, later, k + 1)
              && Unmoved(c0, r.chan)
            else r.status == Ok && Complete(c0, r.chan, segments, apdu, later)
  {
    hide Gathered, Decode, FrameBytes, Absorbed;
    ReassemblerAbsorbs(c.reassembler, segments, k);
    assert Reassembler.SameLink(segments[0], segments[k]);
    if k + 1 == |segments| {
      assert Upcoming(c) == later;
      assert [] + [apdu] == [apdu];
    }
  }

  /** A segment that does not fit what was gathered is refused, and reassembly
      starts over: nothing is queued or written and the session does not move. */
  lemma RefusedSegmentStartsOver(o: ChannelOptions, c: Chan, f: Frame)
    requires o.hdlcUseSession
    requires c.reassembler.PushFrame(f).status != HdlcOk
    requires c.reassembler.PushFrame(f).status != HdlcSegmentationIncomplete
    ensures var r := DecodeFrameToPendingApdu(o, c, f);
            && (r.status == InvalidFrame || r.status == PayloadTooLarge)
            && r.chan == c.(reassembler := c.reassembler.(partial := None), log := r.chan.log)
  {}

  /** Session receive undoes segmentation. One step: however the line is cut into
      reads, a receive either fails with the APDU still underway, the session
      unchanged and nothing written, or completes it with exactly one receipt. */
  lemma {:induction false} NextApduReassembles(
    o: ChannelOptions, c: Chan, segments: seq<Frame>, apdu: bytes, later: seq<Frame>, k: nat) returns (m: nat)
    requires Underway(o, c, segments, apdu, later, k)
    ensures var r := ReceiveNextApdu(o, c);
            if r.status == Ok then Complete(c, r.chan, segments, apdu, later)
            else
              k <= m && Underway(o, r.chan, segments, apdu, later, m) && Unmoved(c, r.chan)
    decreases |c.wire.script|, |c.pendingFrames|
  {
    hide ReceiveDecodedFrame, DecodeFrameToPendingApdu, Decode, Gathered, IsSegmentation, FrameBytes;
    m := k;
    FramesComeInOrder(c);
    var received := ReceiveDecodedFrame(c);
    if received.status == Ok {
      assert Upcoming(c)[0] == received.frame.value == segments[k];
      assert Upcoming(received.chan) == Upcoming(c)[1..] == segments[k + 1..] + later;
      SegmentIsDecoded(o, received.chan, segments, apdu, later, k, c);
      var r := DecodeFrameToPendingApdu(o, received.chan, segments[k]);
      if r.status == NeedMoreData {
        m := NextApduReassembles(o, r.chan, segments, apdu, later, k + 1);
      }
    } else {
      assert [] + Upcoming(received.chan) == Upcoming(received.chan);
    }
  }

  lemma ReceiveReassembles(
    o: ChannelOptions, c: Chan, segments: seq<Frame>, apdu: bytes, later: seq<Frame>, k: nat) returns (m: nat)
    requires Underway(o, c, segments, apdu, later, k)
    ensures var r := ReceiveApdu(o, c);
            if r.status == Ok then r.apdu == apdu && Delivered(c, r.chan, segments, later)
            else
              k <= m && Underway(o, r.chan, segments, apdu, later, m) && Unmoved(c, r.chan)
  {
    hide ReceiveNextApdu, Gathered, Decode, IsSegmentation, Absorbed, FrameBytes;
    m := NextApduReassembles(o, c, segments, apdu, later, k);
  }

  /** Complete, and handed over. */
  predicate Delivered(c: Chan, d: Chan, segments: seq<Frame>, later: seq<Frame>) {
    && CleanLine(d) && d.pendingApdus == [] && Upcoming(d) == later
    && d.reassembler == c.reassembler.(partial := None) && d.wire.open && d.wire.writeResults == []
    && segments != [] && segments[0].control.Information?
    && d.session == c.session.(vr := Increment(c.session.vr), va := segments[0].control.nr)
    && d.wire.writes == c.wire.writes + [FrameBytes(Receipt(c.session))]
  }

  /** A field that is underway has part of it on the line or in the frame queue. */
  lemma UnderwayIsUnread(o: ChannelOptions, c: Chan, segments: seq<Frame>, apdu: bytes, later: seq<Frame>, k: nat)
    requires Underway(o, c, segments, apdu, later, k)
    ensures c.wire.line != [] || c.pendingFrames != []
  {
    hide Decode, Gathered, IsSegmentation, Absorbed;
    assert c.decoder.buffer + [] == c.decoder.buffer;
    assert Upcoming(c)[0] == segments[k];
  }

  function Receives(n: nat): seq<Call> {
    seq(n, i => CallReceive)
  }

  lemma FirstOfReceives(o: ChannelOptions, c: Chan, n: nat)
    requires n > 0
    ensures var r := ReceiveApdu(o, c);
            var run, rest := Run(o, c, Receives(n)), Run(o, r.chan, Receives(n - 1));
            && run.chan == rest.chan && run.outcomes == [Received(r).outcome] + rest.outcomes
    ensures Run(o, c, Receives(0)).chan == c
  {
    assert Receives(n)[1..] == Receives(n - 1);
  }

  /** Repeated receives. `i` is the first that succeeds, if any of the `n` does;
      it returns the APDU, V(R) has advanced once and exactly one receipt has
      been written; before it nothing was written and the session did not move. If
      none succeeds, `m` segments are gathered and part of the line is unread. */
  lemma {:induction false} RepeatedReceivesReassemble(
    o: ChannelOptions, c: Chan, segments: seq<Frame>, apdu: bytes, later: seq<Frame>, k: nat, n: nat)
    returns (i: nat, m: nat)
    requires Underway(o, c, segments, apdu, later, k)
    ensures i <= n
    ensures forall j :: 0 <= j < i ==> Run(o, c, Receives(n)).outcomes[j].status != Ok
    ensures i < n ==>
              && Run(o, c, Receives(n)).outcomes[i] == Outcome(Ok, [apdu])
              && Delivered(c, Run(o, c, Receives(i + 1)).chan, segments, later)
    ensures i == n ==>
              var d := Run(o, c, Receives(n)).chan;
              && Unmoved(c, d) && Underway(o, d, segments, apdu, later, m)
              && (d.wire.line != [] || d.pendingFrames != [])
    decreases n
  {
    hide ReceiveApdu, Underway, Delivered, Run;
    i, m := 0, k;
    UnderwayIsUnread(o, c, segments, apdu, later, k);
    var r := ReceiveApdu(o, c);
    FirstOfReceives(o, c, 1);
    FirstOfReceives(o, r.chan, 1);
    if n > 0 {
      FirstOfReceives(o, c, n);
      m := ReceiveReassembles(o, c, segments, apdu, later, k);
      if r.status != Ok {
        i, m := RepeatedReceivesReassemble(o, r.chan, segments, apdu, later, m, n - 1);
        SameStart(c, r.chan, Run(o, r.chan, Receives(i + 1)).chan, segments, later);
        FirstOfReceives(o, c, i + 2);
        i := i + 1;
      }
    }
  }

  lemma SameStart(c: Chan, c1: Chan, d: Chan, segments: seq<Frame>, later: seq<Frame>)
    requires Unmoved(c, c1)
    ensures Delivered(c1, d, segments, later) ==> Delivered(c, d, segments, later)
  {}

  // ---------------------------------------------------------------------
  // From the sender's limits to the receiver's
  // ---------------------------------------------------------------------

  /** Every APDU that passes the send-side size check fits the reassembly limit of
      a channel with the same options, unless adding the header size overflows
      and the default limit does not make up for it. */
  lemma SendLimitFitsReassembly(o: ChannelOptions)
    requires o.maximumApduSize != 0
    ensures (forall apdu: bytes :: WithinMaximum(o, |apdu|) ==>
               LlcCodec.HEADER_SIZE + |apdu| <= SessionLimits(o).maximumReassembledInformationSize)
        <==>
            || o.maximumApduSize + LlcCodec.HEADER_SIZE < SIZE_MODULUS
            || o.maximumApduSize + LlcCodec.HEADER_SIZE <= o.defaultHdlcLimits.maximumReassembledInformationSize
  {
    var largest: bytes := seq(o.maximumApduSize, i => 0);
    assert WithinMaximum(o, |largest|);
  }

  /** The overflow is reachable: with the largest size as the maximum, an APDU one
      byte above the default reassembly limit may be sent and cannot be reassembled. */
  lemma OverflowingLimitIsTooSmall(o: ChannelOptions, apdu: bytes)
    requires o.maximumApduSize == SIZE_MODULUS - 1
    requires |apdu| == o.defaultHdlcLimits.maximumReassembledInformationSize + 1 < SIZE_MODULUS
    ensures WithinMaximum(o, |apdu|)
    ensures LlcCodec.HEADER_SIZE + |apdu| > SessionLimits(o).maximumReassembledInformationSize
  {}

  /** The segments that carry `chunks` under one header. */
  function SegmentsOf(header: Frame, chunks: seq<bytes>): seq<Frame> {
    seq(|chunks|, i requires 0 <= i < |chunks| => header.(segmented := i < |chunks| - 1, information := chunks[i]))
  }

  /** The line carries exactly `frames`, nothing has been read, and writes succeed. */
  predicate OnTheLine(c: Chan, frames: seq<Frame>) {
    && c.decoder.buffer == [] && c.pendingFrames == [] && c.pendingApdus == []
    && c.wire.peer.NoPeer? && c.wire.open && c.wire.writeResults == []
    && (forall j :: 0 <= j < |frames| ==>
          Encodable(frames[j]) && |frames[j].information| <= c.decoder.limits.maximumInformationFieldSize)
    && c.wire.line == Concat(FramesBytes(frames))
  }

  lemma LineIsUpcoming(c: Chan, frames: seq<Frame>)
    requires OnTheLine(c, frames)
    ensures CleanLine(c) && Upcoming(c) == frames
  {
    FramesAreUpcoming(c, frames);
  }

  lemma SegmentsGather(header: Frame, chunks: seq<bytes>)
    requires header.control.Information? && chunks != []
    ensures var segments := SegmentsOf(header, chunks);
            IsSegmentation(segments) && Gathered(segments, |segments|) == Concat(chunks)
  {
    var segments := SegmentsOf(header, chunks);
    assert segments[..|segments|] == segments && HdlcDelivery.Informations(segments) == chunks;
  }

  lemma SegmentsAreUnderway(
    o: ChannelOptions, c: Chan, header: Frame, d: LlcCodec.Direction, apdu: bytes, chunks: seq<bytes>)
    requires o.hdlcUseSession && Expects(c.session, header)
    requires c.reassembler == NewReassembler(SessionLimits(o)) && WithinMaximum(o, |apdu|)
    requires LlcCodec.HEADER_SIZE + |apdu| <= SessionLimits(o).maximumReassembledInformationSize
    requires chunks != [] && Concat(chunks) == LlcCodec.Header(d) + apdu
    requires OnTheLine(c, SegmentsOf(header, chunks))
    ensures Underway(o, c, SegmentsOf(header, chunks), apdu, [], 0)
  {
    hide OnTheLine, Gathered, CleanLine, Upcoming, IsSegmentation;
    var segments := SegmentsOf(header, chunks);
    LineIsUpcoming(c, segments);
    SegmentsGather(header, chunks);
    assert (LlcCodec.Header(d) + apdu)[LlcCodec.HEADER_SIZE..] == apdu;
    assert segments[0..] + [] == segments;
    QuietOnTheLine(c, segments);
  }

  lemma QuietOnTheLine(c: Chan, frames: seq<Frame>)
    requires OnTheLine(c, frames)
    ensures c.pendingApdus == [] && c.wire.open && c.wire.writeResults == []
  {}

  /** Session receive undoes segmentation. For every APDU within the limits (see
      `SendLimitFitsReassembly`) and every split of its LPDU into segments that share the control
      field the session expects, under every cutting of the line into reads: as
      long as receives fail nothing is written and the session does not move; the
      first that succeeds returns the APDU, and leaves V(R) one further and one
      receipt written. Once everything has been read, one has succeeded. */
  lemma SessionReceiveUndoesSegmentation(
    o: ChannelOptions, c: Chan, header: Frame, d: LlcCodec.Direction, apdu: bytes, chunks: seq<bytes>, n: nat)
    returns (i: nat)
    requires o.hdlcUseSession && Expects(c.session, header)
    requires c.reassembler == NewReassembler(SessionLimits(o)) && WithinMaximum(o, |apdu|)
    requires LlcCodec.HEADER_SIZE + |apdu| <= SessionLimits(o).maximumReassembledInformationSize
    requires chunks != [] && Concat(chunks) == LlcCodec.Header(d) + apdu
    requires OnTheLine(c, SegmentsOf(header, chunks))
    ensures i <= n
    ensures forall j :: 0 <= j < i ==> Run(o, c, Receives(n)).outcomes[j].status != Ok
    ensures i < n ==>
              && Run(o, c, Receives(n)).outcomes[i] == Outcome(Ok, [apdu])
              && var e := Run(o, c, Receives(i + 1)).chan;
                 && e.session == c.session.(vr := Increment(c.session.vr), va := header.control.nr)
                 && e.wire.writes == c.wire.writes + [FrameBytes(Receipt(c.session))]
    ensures i == n ==>
              var e := Run(o, c, Receives(n)).chan;
              && e.session == c.session && e.wire.writes == c.wire.writes
              && (e.wire.line != [] || e.pendingFrames != [])
  {
    hide Run, FrameBytes, Underway, OnTheLine, Receives;
    SegmentsAreUnderway(o, c, header, d, apdu, chunks);
    var m;
    i, m := RepeatedReceivesReassemble(o, c, SegmentsOf(header, chunks), apdu, [], 0, n);
  }
}
