/** When receives succeed: what has been sent arrives once reads keep taking bytes,
    and several APDUs arrive in order. */
module HdlcArrival {
  import opened Basics
  import opened Statuses
  import opened HdlcCodec
  import opened HdlcSession
  import opened ProfileTypes
  import opened Transport
  import opened HdlcChannelSpec
  import opened HdlcBooks
  import opened HdlcReceive
  import HdlcDelivery
  import LlcCodec

  // ---------------------------------------------------------------------
  // One frame
  // ---------------------------------------------------------------------

  /** A clean line without noise, and enough reads that take at least a byte. */
  predicate Flowing(c: Chan) {
    && CleanLine(c) && NoNoise(c.decoder.limits, c.decoder.buffer + c.wire.line)
    && c.wire.open && c.capacity > 0 && Prompt(c.wire.script) && |c.wire.line| <= |c.wire.script|
  }

  lemma {:induction false} PullFindsTheNext(c: Chan)
    requires Flowing(c) && c.pendingFrames == [] && Upcoming(c) != []
    ensures Pull(c).status == Ok && Flowing(Pull(c).chan)
    decreases |c.wire.script|
  {
    hide HdlcDecoder.Feed, Wire.ReadSome, Decode, NoNoise;
    assert c.decoder.buffer + [] == c.decoder.buffer;
    PromptRead(c.wire, c.capacity);
    var read := c.wire.ReadSome(c.capacity);
    PushTakesFromAhead(c, read.data, read.wire);
    FeedWithoutNoise(c.decoder, read.data, read.wire.line);
    var pushed := c.decoder.Feed(read.data);
    if pushed.verdict.NeedMore? {
      NothingWithoutVerdict(c.decoder, read.data);
      var d := c.(wire := read.wire, decoder := c.decoder.(buffer := pushed.buffer));
      assert Upcoming(d) == Upcoming(c);
      PullFindsTheNext(d);
    }
  }

  /** While the line flows and carries a frame, a receive of one frame succeeds. */
  lemma FrameArrives(c: Chan)
    requires Flowing(c) && Upcoming(c) != []
    ensures ReceiveDecodedFrame(c).status == Ok && Flowing(ReceiveDecodedFrame(c).chan)
  {
    hide Pull, Decode, NoNoise;
    if c.pendingFrames == [] {
      PullFindsTheNext(c);
    }
  }

  /** Bytes may have been written, but none read. */
  predicate ReadsNothing(c: Chan, d: Chan) {
    && d.decoder == c.decoder && d.capacity == c.capacity
    && d.wire == c.wire.(outbound := d.wire.outbound, writes := d.wire.writes, writeResults := d.wire.writeResults)
  }

  lemma HearingReadsNothing(c: Chan, f: Frame)
    ensures ReadsNothing(c, Hear(c, f).chan)
  {
    hide Session.ReceiveFrame;
  }

  lemma QueueingReadsNothing(o: ChannelOptions, c: Chan, f: Frame)
    ensures ReadsNothing(c, DecodeCompleteInformation(o, c, f).chan)
  {}

  lemma ReadyReadsNothing(c: Chan)
    ensures ReadsNothing(c, SendSessionReceiveReady(c, true).chan)
  {
    hide Session.BuildReceiveReadyFrame;
  }

  lemma DecodingReadsNothing(o: ChannelOptions, c: Chan, f: Frame)
    ensures ReadsNothing(c, DecodeFrameToPendingApdu(o, c, f).chan)
  {
    hide Hear, DecodeCompleteInformation, SendSessionReceiveReady, Reassembler.PushFrame;
    QueueingReadsNothing(o, c, f);
    var joined := c.reassembler.PushFrame(f);
    var d := Note(c, Assembled(f, joined.status)).(reassembler := joined.reassembler);
    HearingReadsNothing(d, joined.completed);
    var heard := Hear(d, joined.completed).chan;
    QueueingReadsNothing(o, heard, joined.completed);
    ReadyReadsNothing(DecodeCompleteInformation(o, heard, joined.completed).chan);
  }

  /** What decoding a frame changes does not stop the flow. */
  lemma DecodingKeepsFlowing(o: ChannelOptions, c: Chan, f: Frame)
    requires Flowing(c)
    ensures Flowing(DecodeFrameToPendingApdu(o, c, f).chan)
  {
    hide DecodeFrameToPendingApdu, Decode, NoNoise;
    DecodingReadsNothing(o, c, f);
  }

  // ---------------------------------------------------------------------
  // Without a session
  // ---------------------------------------------------------------------

  /** While the line flows, a receive returns the APDU of the next frame. */
  lemma PlainApduArrives(o: ChannelOptions, c: Chan)
    requires !o.hdlcUseSession && Flowing(c) && c.pendingApdus == []
    requires Upcoming(c) != [] && ApduOf(o, Upcoming(c)[0]) != []
    ensures var r := ReceiveApdu(o, c);
            && r.status == Ok && [r.apdu] == ApduOf(o, Upcoming(c)[0])
            && Flowing(r.chan) && r.chan.pendingApdus == [] && Upcoming(r.chan) == Upcoming(c)[1..]
  {
    hide ReceiveDecodedFrame, Decode, NoNoise, Dry;
    FrameArrives(c);
    FramesComeInOrder(c);
    var received := ReceiveDecodedFrame(c);
    var f := received.frame.value;
    DecodingQueuesItsApdu(o, received.chan, f);
    DecodingKeepsFlowing(o, received.chan, f);
    assert [] + ApduOf(o, f) == ApduOf(o, f);
    assert DecodeFrameToPendingApdu(o, received.chan, f).status == Ok;
  }

  lemma {:induction false} PlainApdusArrive(o: ChannelOptions, c: Chan, n: nat)
    requires !o.hdlcUseSession && Flowing(c) && c.pendingApdus == []
    requires n <= |Upcoming(c)| && forall i :: 0 <= i < n ==> ApduOf(o, Upcoming(c)[i]) != []
    ensures var run := Run(o, c, Receives(n));
            AllOk(run.outcomes) && AllReturned(run.outcomes) == ApdusIn(o, Upcoming(c)[..n])
    decreases n
  {
    hide ReceiveApdu, Flowing, Upcoming, ApduOf, Run;
    if n == 0 {
      NothingReceived(o, c);
    } else {
      PlainApduArrives(o, c);
      FirstOfReceives(o, c, n);
      var r := ReceiveApdu(o, c);
      PlainApdusArrive(o, r.chan, n - 1);
      assert Upcoming(c)[..n] == [Upcoming(c)[0]] + Upcoming(c)[1..][..n - 1];
      ApdusInSplit(o, [Upcoming(c)[0]], Upcoming(c)[1..][..n - 1]);
      assert ApdusIn(o, [Upcoming(c)[0]]) == ApduOf(o, Upcoming(c)[0]) + ApdusIn(o, []);
    }
  }

  lemma NothingReceived(o: ChannelOptions, c: Chan)
    ensures Run(o, c, Receives(0)).outcomes == []
  {}

  /** The round trip without a session completes: if every send of a list returned
      Ok, then on a channel with the same options whose line carries what was
      written and whose reads keep taking bytes, every receive up to the length
      of the list returns Ok, with the next APDU. */
  lemma PlainRoundTripArrives(o: ChannelOptions, a: Chan, apdus: seq<bytes>, b: Chan, n: nat)
    requires !o.hdlcUseSession && AllOk(Run(o, a, HdlcDelivery.Sends(apdus)).outcomes)
    requires a.wire.writes == [] && a.limits == b.decoder.limits
    requires b.decoder.buffer == [] && b.pendingFrames == [] && b.pendingApdus == [] && b.wire.peer.NoPeer?
    requires b.wire.line == Concat(Run(o, a, HdlcDelivery.Sends(apdus)).chan.wire.writes)
    requires b.wire.open && b.capacity > 0 && Prompt(b.wire.script) && |b.wire.line| <= |b.wire.script|
    requires n <= |apdus|
    ensures var run := Run(o, b, Receives(n));
            AllOk(run.outcomes) && AllReturned(run.outcomes) == apdus[..n]
  {
    hide Run, FramesBytes, Decode, NoNoise, ApduOf, PlainFrame;
    PlainSendsWriteFrames(o, a, apdus);
    var fs := PlainFrames(o, apdus);
    assert [] + FramesBytes(fs) == FramesBytes(fs) && [] + b.wire.line == b.wire.line;
    FramesAreUpcoming(b, fs);
    FramesAreNoNoise(b.decoder.limits, fs);
    forall i | 0 <= i < n ensures ApduOf(o, fs[i]) == [apdus[i]] {
      PlainFrameCarriesApdu(o, apdus[i]);
    }
    PlainApdusArrive(o, b, n);
    PlainFramesCarryApdus(o, apdus[..n]);
    assert fs[..n] == PlainFrames(o, apdus[..n]);
  }

  lemma PlainFrameCarriesApdu(o: ChannelOptions, apdu: bytes)
    requires WithinMaximum(o, |apdu|)
    ensures ApduOf(o, PlainFrame(o, apdu)) == [apdu]
  {
    assert (LlcCodec.Header(o.hdlcDirection) + apdu)[LlcCodec.HEADER_SIZE..] == apdu;
  }

  // ---------------------------------------------------------------------
  // With a session
  // ---------------------------------------------------------------------

  lemma {:induction false} NextApduArrives(
    o: ChannelOptions, c: Chan, segments: seq<Frame>, apdu: bytes, later: seq<Frame>, k: nat)
    requires Underway(o, c, segments, apdu, later, k) && Flowing(c)
    ensures ReceiveNextApdu(o, c).status == Ok && Flowing(ReceiveNextApdu(o, c).chan)
    decreases |segments| - k
  {
    hide ReceiveDecodedFrame, DecodeFrameToPendingApdu, Decode, NoNoise, Gathered, IsSegmentation, FrameBytes, Flowing;
    FramesComeInOrder(c);
    assert Upcoming(c)[0] == segments[k];
    FrameArrives(c);
    var received := ReceiveDecodedFrame(c);
    assert Upcoming(received.chan) == Upcoming(c)[1..] == segments[k + 1..] + later;
    SegmentIsDecoded(o, received.chan, segments, apdu, later, k, c);
    DecodingKeepsFlowing(o, received.chan, segments[k]);
    var r := DecodeFrameToPendingApdu(o, received.chan, segments[k]);
    if r.status == NeedMoreData {
      NextApduArrives(o, r.chan, segments, apdu, later, k + 1);
    }
  }

  /** While the line flows, a single receive returns the APDU that is underway, over
      however many segments and reads. */
  lemma SegmentedApduArrives(o: ChannelOptions, c: Chan, segments: seq<Frame>, apdu: bytes, later: seq<Frame>, k: nat)
    requires Underway(o, c, segments, apdu, later, k) && Flowing(c)
    ensures var r := ReceiveApdu(o, c);
            r.status == Ok && r.apdu == apdu && Delivered(c, r.chan, segments, later) && Flowing(r.chan)
  {
    hide ReceiveNextApdu, Underway, Delivered, Upcoming, Decode, NoNoise;
    NextApduArrives(o, c, segments, apdu, later, k);
    NothingPending(o, c, segments, apdu, later, k);
    var m := ReceiveReassembles(o, c, segments, apdu, later, k);
  }

  lemma NothingPending(o: ChannelOptions, c: Chan, segments: seq<Frame>, apdu: bytes, later: seq<Frame>, k: nat)
    requires Underway(o, c, segments, apdu, later, k)
    ensures c.pendingApdus == []
  {}

  /** The line flows when it carries whole frames and nothing has been read. */
  lemma LineFlows(c: Chan, frames: seq<Frame>)
    requires OnTheLine(c, frames)
    requires c.capacity > 0 && Prompt(c.wire.script) && |c.wire.line| <= |c.wire.script|
    ensures Flowing(c)
  {
    hide FramesBytes, Decode, NoNoise;
    LineIsUpcoming(c, frames);
    FramesAreNoNoise(c.decoder.limits, frames);
    assert [] + c.wire.line == c.wire.line;
  }

  /** Session receive undoes segmentation, and succeeds. For every APDU within the
      limits and every split of its LPDU into segments under the expected control
      field: if reads keep taking bytes, one receive returns the APDU. */
  lemma SegmentedRoundTripArrives(
    o: ChannelOptions, c: Chan, header: Frame, d: LlcCodec.Direction, apdu: bytes, chunks: seq<bytes>)
    requires o.hdlcUseSession && Expects(c.session, header)
    requires c.reassembler == NewReassembler(SessionLimits(o)) && WithinMaximum(o, |apdu|)
    requires LlcCodec.HEADER_SIZE + |apdu| <= SessionLimits(o).maximumReassembledInformationSize
    requires chunks != [] && Concat(chunks) == LlcCodec.Header(d) + apdu
    requires OnTheLine(c, SegmentsOf(header, chunks))
    requires c.capacity > 0 && Prompt(c.wire.script) && |c.wire.line| <= |c.wire.script|
    ensures var r := ReceiveApdu(o, c);
            && r.status == Ok && r.apdu == apdu
            && r.chan.session == c.session.(vr := Increment(c.session.vr), va := header.control.nr)
            && r.chan.wire.writes == c.wire.writes + [FrameBytes(Receipt(c.session))]
  {
    hide FrameBytes, Underway, OnTheLine, Flowing, ReceiveApdu, Expects;
    SegmentsAreUnderway(o, c, header, d, apdu, chunks);
    LineFlows(c, SegmentsOf(header, chunks));
    SegmentedApduArrives(o, c, SegmentsOf(header, chunks), apdu, [], 0);
  }

  // ---------------------------------------------------------------------
  // After a refused segment
  // ---------------------------------------------------------------------

  /** The reassembler does not take `f` with what it holds. */
  predicate Refused(r: Reassembler, f: Frame) {
    var status := r.PushFrame(f).status;
    status != HdlcOk && status != HdlcSegmentationIncomplete
  }

  /** `bad` will be refused, and behind it comes a field that fits an empty reassembler. */
  predicate Stumbling(o: ChannelOptions, c: Chan, bad: Frame, field: Field, later: seq<Frame>) {
    && CleanLine(c) && c.pendingApdus == [] && Upcoming(c) == [bad] + field.segments + later
    && Refused(c.reassembler, bad) && InSequence(o, c.session, c.reassembler.maximumSize, [field])
    && o.hdlcUseSession && c.wire.open && c.wire.writeResults == []
  }

  /** Resynchronisation. Whatever was gathered, a receive that meets a frame which
      does not fit fails, and leaves the next whole field underway from its first
      segment, with an unchanged session and nothing written; or it fails before
      that frame and everything is as it was. */
  lemma RefusalResynchronises(o: ChannelOptions, c: Chan, bad: Frame, field: Field, later: seq<Frame>)
    requires Stumbling(o, c, bad, field, later)
    ensures var r := ReceiveApdu(o, c);
            && r.status != Ok && Unmoved(c, r.chan)
            && (Underway(o, r.chan, field.segments, field.apdu, later, 0)
                || Stumbling(o, r.chan, bad, field, later))
    ensures Flowing(c) ==>
              var r := ReceiveApdu(o, c);
              && (r.status == InvalidFrame || r.status == PayloadTooLarge)
              && Flowing(r.chan) && Underway(o, r.chan, field.segments, field.apdu, later, 0)
  {
    hide ReceiveDecodedFrame, DecodeFrameToPendingApdu, Decode, NoNoise, Dry, Reassembler.PushFrame, Gathered;
    hide IsSegmentation, Expects;
    FramesComeInOrder(c);
    var received := ReceiveDecodedFrame(c);
    if received.status == Ok {
      assert Upcoming(c)[0] == received.frame.value == bad;
      assert Upcoming(received.chan) == Upcoming(c)[1..] == field.segments + later;
      RefusedSegmentStartsOver(o, received.chan, bad);
      var d := DecodeFrameToPendingApdu(o, received.chan, bad).chan;
      assert Upcoming(d) == Upcoming(received.chan);
      FieldIsUnderway(o, d, field, later);
      DecodingKeepsTheFlow(o, received.chan, bad);
    } else {
      assert [] + Upcoming(received.chan) == Upcoming(received.chan);
    }
    if Flowing(c) {
      FrameArrives(c);
    }
  }

  lemma DecodingKeepsTheFlow(o: ChannelOptions, c: Chan, f: Frame)
    ensures Flowing(c) ==> Flowing(DecodeFrameToPendingApdu(o, c, f).chan)
  {
    hide Flowing, DecodeFrameToPendingApdu;
    if Flowing(c) {
      DecodingKeepsFlowing(o, c, f);
    }
  }

  lemma FieldIsUnderway(o: ChannelOptions, c: Chan, field: Field, later: seq<Frame>)
    requires o.hdlcUseSession && InSequence(o, c.session, c.reassembler.maximumSize, [field])
    requires CleanLine(c) && c.pendingApdus == [] && c.reassembler.partial == None
    requires Upcoming(c) == field.segments + later && c.wire.open && c.wire.writeResults == []
    ensures Underway(o, c, field.segments, field.apdu, later, 0)
  {
    hide CleanLine, Upcoming, Gathered;
    assert field.segments[0..] == field.segments;
  }

  /** On a flowing line the receive after the refusal returns the next field. */
  lemma FieldAfterRefusalArrives(o: ChannelOptions, c: Chan, bad: Frame, field: Field, later: seq<Frame>)
    requires Stumbling(o, c, bad, field, later) && Flowing(c)
    ensures var first := ReceiveApdu(o, c);
            var second := ReceiveApdu(o, first.chan);
            && (first.status == InvalidFrame || first.status == PayloadTooLarge)
            && second.status == Ok && second.apdu == field.apdu
            && Delivered(c, second.chan, field.segments, later) && Flowing(second.chan)
  {
    hide Stumbling, Flowing, Underway, ReceiveApdu;
    RefusalResynchronises(o, c, bad, field, later);
    var first := ReceiveApdu(o, c);
    SegmentedApduArrives(o, first.chan, field.segments, field.apdu, later, 0);
    SameStart(c, first.chan, ReceiveApdu(o, first.chan).chan, field.segments, later);
  }

  // ---------------------------------------------------------------------
  // Several APDUs, one after the other
  // ---------------------------------------------------------------------

  /** The segments of one information field and the APDU it carries. */
  datatype Field = Field(segments: seq<Frame>, apdu: bytes)

  /** The session after the receiver has taken a field. */
  function Past(s: Session, field: Field): Session {
    if field.segments != [] && field.segments[0].control.Information?
    then s.(vr := Increment(s.vr), va := field.segments[0].control.nr)
    else s
  }

  /** Each field is one the session expects after those before it, and fits. */
  predicate InSequence(o: ChannelOptions, s: Session, size: nat, fields: seq<Field>)
    decreases |fields|
  {
    fields == [] ||
    var segments := fields[0].segments;
    && IsSegmentation(segments) && Expects(s, segments[0])
    && LlcCodec.DecodeLpdu(Gathered(segments, |segments|)) == LlcCodec.Success(fields[0].apdu)
    && |Gathered(segments, |segments|)| <= size && WithinMaximum(o, |fields[0].apdu|)
    && InSequence(o, Past(s, fields[0]), size, fields[1..])
  }

  function SegmentsIn(fields: seq<Field>): seq<Frame> {
    if fields == [] then [] else fields[0].segments + SegmentsIn(fields[1..])
  }

  function ApdusOf(fields: seq<Field>): seq<bytes> {
    if fields == [] then [] else [fields[0].apdu] + ApdusOf(fields[1..])
  }

  function PastAll(s: Session, fields: seq<Field>): Session
    decreases |fields|
  {
    if fields == [] then s else PastAll(Past(s, fields[0]), fields[1..])
  }

  /** One receipt for each field. */
  function Receipts(s: Session, fields: seq<Field>): seq<bytes>
    decreases |fields|
  {
    if fields == [] then [] else [FrameBytes(Receipt(s))] + Receipts(Past(s, fields[0]), fields[1..])
  }

  /** Nothing more is coming. */
  predicate Finished(c: Chan) {
    CleanLine(c) && c.pendingApdus == [] && Upcoming(c) == []
  }

  /** `fields` are on their way, `k` segments of the first already gathered. */
  predicate Arriving(o: ChannelOptions, c: Chan, fields: seq<Field>, k: nat) {
    && o.hdlcUseSession && InSequence(o, c.session, c.reassembler.maximumSize, fields)
    && if fields == [] then Finished(c)
       else Underway(o, c, fields[0].segments, fields[0].apdu, SegmentsIn(fields[1..]), k)
  }

  /** One receive takes the first field whole, or leaves it on its way. */
  lemma NextFieldArrives(o: ChannelOptions, c: Chan, fields: seq<Field>, k: nat) returns (m: nat)
    requires Arriving(o, c, fields, k) && fields != []
    ensures var r := ReceiveApdu(o, c);
            if r.status == Ok then
              && r.apdu == fields[0].apdu && Arriving(o, r.chan, fields[1..], 0)
              && r.chan.session == Past(c.session, fields[0])
              && r.chan.wire.writes == c.wire.writes + [FrameBytes(Receipt(c.session))]
            else Arriving(o, r.chan, fields, m) && Unmoved(c, r.chan)
    ensures Flowing(c) ==> ReceiveApdu(o, c).status == Ok && Flowing(ReceiveApdu(o, c).chan)
  {
    hide ReceiveApdu, Underway, CleanLine, Upcoming, Flowing, FrameBytes, IsSegmentation, Gathered, Expects;
    var segments, apdu, later := fields[0].segments, fields[0].apdu, SegmentsIn(fields[1..]);
    m := ReceiveReassembles(o, c, segments, apdu, later, k);
    var r := ReceiveApdu(o, c);
    if r.status == Ok && fields[1..] != [] {
      NextIsUnderway(o, r.chan, fields[1..]);
    }
    if Flowing(c) {
      SegmentedApduArrives(o, c, segments, apdu, later, k);
    }
  }

  lemma NextIsUnderway(o: ChannelOptions, c: Chan, fields: seq<Field>)
    requires o.hdlcUseSession && fields != [] && InSequence(o, c.session, c.reassembler.maximumSize, fields)
    requires CleanLine(c) && c.pendingApdus == [] && c.reassembler.partial == None && Upcoming(c) == SegmentsIn(fields)
    requires c.wire.open && c.wire.writeResults == []
    ensures Underway(o, c, fields[0].segments, fields[0].apdu, SegmentsIn(fields[1..]), 0)
  {
    hide CleanLine, Upcoming, Gathered;
    assert fields[0].segments[0..] == fields[0].segments;
  }

  lemma NothingArrives(o: ChannelOptions, c: Chan)
    requires Finished(c)
    ensures var r := ReceiveApdu(o, c);
            r.status != Ok && Finished(r.chan) && Unmoved(c, r.chan)
  {
    hide ReceiveDecodedFrame, Decode, Dry;
    FramesComeInOrder(c);
    var received := ReceiveDecodedFrame(c);
    assert [] + Upcoming(received.chan) == Upcoming(received.chan);
  }

  /** Under every cutting and with any failing receives in between, `n` receives
      return the first `m` APDUs in order, with one receipt and one step of V(R)
      for each; all of them once everything has been read, and as many as there
      are receives, if the line flows. */
  lemma {:induction false} ReceivesReturnInOrder(
    o: ChannelOptions, c: Chan, fields: seq<Field>, k: nat, n: nat) returns (m: nat)
    requires Arriving(o, c, fields, k)
    ensures m <= n && m <= |fields|
    ensures var run := Run(o, c, Receives(n));
            && AllReturned(run.outcomes) == ApdusOf(fields[..m])
            && run.chan.session == PastAll(c.session, fields[..m])
            && run.chan.wire.writes == c.wire.writes + Receipts(c.session, fields[..m])
            && (run.chan.wire.line == [] && run.chan.pendingFrames == [] ==> m == |fields|)
            && (Flowing(c) ==> m == Min(n, |fields|))
    decreases n
  {
    hide ReceiveApdu, Arriving, Flowing, Run, ApdusOf, PastAll, Receipts, InSequence;
    m := 0;
    NoFields(c.session);
    if n == 0 {
      NothingReceived(o, c);
      FirstOfReceives(o, c, 1);
      assert c.wire.writes + [] == c.wire.writes;
      if fields != [] {
        ArrivingIsUnread(o, c, fields, k);
      }
    } else {
      FirstOfReceives(o, c, n);
      var r := ReceiveApdu(o, c);
      if fields == [] {
        FinishedArriving(o, c, k);
        NothingArrives(o, c);
        FinishedArriving(o, r.chan, k);
        m := ReceivesReturnInOrder(o, r.chan, fields, k, n - 1);
      } else {
        var next := NextFieldArrives(o, c, fields, k);
        if r.status == Ok {
          m := ReceivesReturnInOrder(o, r.chan, fields[1..], 0, n - 1);
          OneFieldMore(c.session, fields, m);
          var head, tail := [FrameBytes(Receipt(c.session))], Receipts(Past(c.session, fields[0]), fields[1..][..m]);
          assert (c.wire.writes + head) + tail == c.wire.writes + (head + tail);
          m := m + 1;
        } else {
          m := ReceivesReturnInOrder(o, r.chan, fields, next, n - 1);
        }
      }
    }
  }

  lemma NoFields(s: Session)
    ensures ApdusOf([]) == [] && PastAll(s, []) == s && Receipts(s, []) == []
  {}

  lemma OneFieldMore(s: Session, fields: seq<Field>, m: nat)
    requires m < |fields|
    ensures var head, tail := fields[0], fields[1..][..m];
            && ApdusOf(fields[..m + 1]) == [head.apdu] + ApdusOf(tail)
            && PastAll(s, fields[..m + 1]) == PastAll(Past(s, head), tail)
            && Receipts(s, fields[..m + 1]) == [FrameBytes(Receipt(s))] + Receipts(Past(s, head), tail)
  {
    assert fields[1..][..m] == fields[..m + 1][1..];
  }

  lemma FinishedArriving(o: ChannelOptions, c: Chan, k: nat)
    ensures Arriving(o, c, [], k) <==> o.hdlcUseSession && Finished(c)
  {}

  lemma ArrivingIsUnread(o: ChannelOptions, c: Chan, fields: seq<Field>, k: nat)
    requires Arriving(o, c, fields, k) && fields != []
    ensures c.wire.line != [] || c.pendingFrames != []
  {
    hide Underway;
    UnderwayIsUnread(o, c, fields[0].segments, fields[0].apdu, SegmentsIn(fields[1..]), k);
  }

  /** Every list of fields in sequence, on a line that has not been read, arrives so. */
  lemma FieldsOnTheLineArrive(o: ChannelOptions, c: Chan, fields: seq<Field>)
    requires o.hdlcUseSession && OnTheLine(c, SegmentsIn(fields))
    requires InSequence(o, c.session, c.reassembler.maximumSize, fields) && c.reassembler.partial == None
    ensures Arriving(o, c, fields, 0)
    ensures c.capacity > 0 && Prompt(c.wire.script) && |c.wire.line| <= |c.wire.script| ==> Flowing(c)
  {
    hide CleanLine, Upcoming, OnTheLine, InSequence, Underway, Flowing;
    LineIsUpcoming(c, SegmentsIn(fields));
    QuietOnTheLine(c, SegmentsIn(fields));
    if fields != [] {
      NextIsUnderway(o, c, fields);
    }
    if c.capacity > 0 && Prompt(c.wire.script) && |c.wire.line| <= |c.wire.script| {
      LineFlows(c, SegmentsIn(fields));
    }
  }
}
