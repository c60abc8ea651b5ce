/** What a caller of a WRAPPER/TCP channel sees: the bytes each call writes, the
    events the sink gets and the status returned, told from the options and the
    inputs. */
module WrapperTcpOutcomes {
  import opened Basics
  import opened Statuses
  import opened WrapperCodec
  import opened ProfileTypes
  import opened Transport
  import opened WrapperTcpSpec
  import opened WrapperTcpTheorems

  /** Opening and closing reach the stream, and closing throws away all that had
      been received, whatever the stream answers. */
  lemma OpenAndCloseReachTheStream(s: Tcp)
    ensures var r := Open(s);
            && r.status == MapTransportStatus(s.wire.openResult)
            && r.state == s.(wire := s.wire.(open := s.wire.open || s.wire.openResult == TransportOk))
    ensures var r := Close(s);
            && r.status == MapTransportStatus(s.wire.closeResult)
            && r.state == s.(decoder := WrapperDecoder(s.decoder.limits, []), pending := [],
                             wire := s.wire.(open := s.wire.open && s.wire.closeResult != TransportOk))
  {}

  // ---------------------------------------------------------------------
  // Sending
  // ---------------------------------------------------------------------

  /** A data unit, byte by byte: version, source and destination port and length,
      each most significant byte first, and the data. */
  function UnitBytes(source: Word, destination: Word, data: bytes): bytes
    requires |data| < 0x1_0000
  {
    [0, 1, source / 256, source % 256, destination / 256, destination % 256, |data| / 256, |data| % 256] + data
  }

  /** Data within the library's limits and the configured maximum. */
  predicate MayBeSent(o: ChannelOptions, size: nat) {
    var configured := o.maximumApduSize != 0 && o.maximumApduSize < o.defaultWrapperLimits.maximumDataSize;
    && size < 0x1_0000 && (o.maximumApduSize == 0 || size <= o.maximumApduSize)
    && size <= o.defaultWrapperLimits.maximumDataSize
    && (configured || 8 + size <= o.defaultWrapperLimits.maximumFrameSize)
  }

  /** Sending, case by case. Data within the limits is written once, from the local to
      the remote port, and the call returns what the write did; the sink is shown
      the same before. Anything else is refused, and nothing is written or shown. */
  lemma SendOutcome(o: ChannelOptions, s: Tcp, size: nat, apdu: bytes)
    ensures size > 0 ==> SendApdu(o, s, NullView(size)) == Reply(InvalidArgument, s)
    ensures SendApdu(o, s, NullView(0)) == SendApdu(o, s, View([]))
    ensures var r := SendApdu(o, s, View(apdu));
            if !MayBeSent(o, |apdu|) then r == Reply(PayloadTooLarge, s)
            else
              var b := UnitBytes(o.localWrapperPort, o.remoteWrapperPort, apdu);
              && r.status == NextWrite(s.wire)
              && r.state == s.(wire := r.state.wire, trace := r.state.trace)
              && r.state.wire.writes == s.wire.writes + [b]
              && r.state.wire.outbound == s.wire.outbound + (if NextWrite(s.wire) == Ok then [b] else [])
              && r.state.trace == s.trace +
                   if o.wrapperTcpTraceSink
                   then [TraceEvent(EncodedFrame, Outbound, Ok, o.localWrapperPort, o.remoteWrapperPort,
                                    8 + |apdu|, |apdu|, b)]
                   else []
  {
    assert s.wire.outbound + [] == s.wire.outbound && s.trace + [] == s.trace;
    if MayBeSent(o, |apdu|) {
      UnitIsEncoded(OutgoingFrame(o, apdu));
    }
  }

  lemma UnitIsEncoded(f: WrapperFrame)
    requires Sized(f)
    ensures WpduBytes(f) == UnitBytes(f.source, f.destination, f.data)
  {}

  // ---------------------------------------------------------------------
  // Receiving
  // ---------------------------------------------------------------------

  function Shows(o: ChannelOptions, trace: seq<TraceEvent>, e: TraceEvent): seq<TraceEvent> {
    if o.wrapperTcpTraceSink then trace + [e] else trace
  }

  /** A receive that has to read, and the read fails or brings nothing: the call
      reports it; the sink is shown a failed read only. A buffer of size zero is
      refused. */
  lemma EmptyReadIsReported(o: ChannelOptions, s: Tcp)
    requires s.pending == []
    ensures s.capacity == 0 ==> ReceiveApdu(o, s) == ApduReply(InvalidArgument, [], s)
    ensures var read := s.wire.ReadSome(s.capacity);
            s.capacity > 0 && read.data == [] ==>
              if read.status == TransportOk then
                ReceiveApdu(o, s) == ApduReply(NeedMoreData, [], s.(wire := read.wire))
              else
                var status := MapTransportStatus(read.status);
                ReceiveApdu(o, s) == ApduReply(status, [], s.(wire := read.wire,
                  trace := Shows(o, s.trace, TraceEvent(ReadStatus, Inbound, status, 0, 0, 0, 0, []))))
  {
    hide WrapperDecoder.Feed, Wire.ReadSome;
    var read := s.wire.ReadSome(s.capacity);
    if s.capacity > 0 && read.data == [] && read.status != TransportOk {
      assert MapTransportStatus(read.status) != Ok;
    }
  }

  /** Bytes that cannot be decoded: the call reports the codec's status, the sink is
      shown it with the bytes of that read, and the decoder starts over. */
  lemma MalformedInputIsReported(o: ChannelOptions, s: Tcp)
    requires s.pending == [] && s.capacity > 0
    ensures var read := s.wire.ReadSome(s.capacity);
            var pushed := s.decoder.Feed(read.data);
            read.status == TransportOk && read.data != [] && pushed.verdict.Failed? ==>
              var status := MapWrapperStatus(pushed.verdict.error);
              ReceiveApdu(o, s) == ApduReply(status, [],
                s.(wire := read.wire, decoder := WrapperDecoder(s.decoder.limits, []),
                   trace := Shows(o, s.trace, TraceEvent(DecodeStatus, Inbound, status, 0, 0, 0, 0, read.data))))
  {
    hide WrapperDecoder.Feed, Wire.ReadSome;
    FailuresAreErrors(s.decoder, s.wire.ReadSome(s.capacity).data);
  }

  lemma FailuresAreErrors(d: WrapperDecoder, input: bytes)
    ensures var verdict := d.Feed(input).verdict;
            verdict.Failed? ==> MapWrapperStatus(verdict.error) != Ok && MapWrapperStatus(verdict.error) != NeedMoreData
  {
    ErrorsAreErrors(d.limits, d.buffer + input);
  }

  /** An output buffer that is not valid is refused before anything is read; one
      that is too small keeps the APDU for the next call. */
  lemma BufferIsChecked(o: ChannelOptions, s: Tcp, size: nat)
    ensures ReceiveApduInto(o, s, false, size) == ApduReply(InvalidArgument, [], s)
    ensures s.pending != [] && size < |s.pending[0].data| ==>
              ReceiveApduInto(o, s, true, size) == ApduReply(OutputBufferTooSmall, [], s)
    ensures s.pending != [] && |s.pending[0].data| <= size ==>
              ReceiveApduInto(o, s, true, size) == ApduReply(Ok, s.pending[0].data, s.(pending := s.pending[1..]))
  {}

  /** A new channel reads at most its scratch size at once, 2048 bytes by default. */
  lemma NewChannelIsEmpty(o: ChannelOptions, wire: Wire)
    ensures var s := Initial(o, wire);
            && s.decoder.buffer == [] && s.pending == [] && s.wire == wire && s.trace == []
            && s.capacity == (if o.scratchBufferSize == 0 then 2048 else o.scratchBufferSize)
  {}

  // ---------------------------------------------------------------------
  // Decoded frames, as the sink sees them
  // ---------------------------------------------------------------------

  /** The events for decoded frames, in order. */
  function Decodes(trace: seq<TraceEvent>): seq<TraceEvent> {
    if trace == [] then []
    else (if trace[0].kind == DecodedFrame then [trace[0]] else []) + Decodes(trace[1..])
  }

  lemma {:induction false} DecodesSplit(a: seq<TraceEvent>, b: seq<TraceEvent>)
    ensures Decodes(a + b) == Decodes(a) + Decodes(b)
    decreases |a|
  {
    if a == [] {
      assert a + b == b;
    } else {
      assert (a + b)[1..] == a[1..] + b;
      DecodesSplit(a[1..], b);
    }
  }

  /** What the sink should be shown for received data units: their ports, the size of
      the unit, the size of its data, and the data. */
  function Expected(frames: seq<WrapperFrame>): seq<TraceEvent> {
    seq(|frames|, i requires 0 <= i < |frames| =>
      TraceEvent(DecodedFrame, Inbound, Ok, frames[i].source, frames[i].destination,
                 8 + |frames[i].data|, |frames[i].data|, frames[i].data))
  }

  lemma {:induction false} DecodedAreExpected(frames: seq<WrapperFrame>)
    ensures Decodes(DecodedEvents(frames)) == Expected(frames)
    decreases |frames|
  {
    if frames != [] {
      assert DecodedEvents(frames)[1..] == DecodedEvents(frames[1..]);
      DecodedAreExpected(frames[1..]);
      assert Expected(frames) == [Expected(frames)[0]] + Expected(frames[1..]);
    }
  }

  lemma ExpectedSplit(a: seq<WrapperFrame>, b: seq<WrapperFrame>)
    ensures Expected(a + b) == Expected(a) + Expected(b)
  {}

  /** What the sink has been shown of the stream, and what it will be shown. */
  ghost function Story(s: Tcp): seq<TraceEvent> {
    Decodes(s.trace) + Expected(Ahead(s).frames)
  }

  lemma ShowingOther(s: Tcp, e: TraceEvent)
    requires e.kind != DecodedFrame
    ensures Decodes(s.trace + [e]) == Decodes(s.trace)
  {
    DecodesSplit(s.trace, [e]);
    assert Decodes([e]) == [] + Decodes([]) == [];
    assert Decodes(s.trace) + [] == Decodes(s.trace);
  }

  lemma ShowingDecoded(s: Tcp, t: Tcp, frames: seq<WrapperFrame>)
    requires Ahead(s).frames == frames + Ahead(t).frames && t.trace == s.trace + DecodedEvents(frames)
    ensures Story(t) == Story(s)
  {
    hide Ahead;
    DecodesSplit(s.trace, DecodedEvents(frames));
    DecodedAreExpected(frames);
    ExpectedSplit(frames, Ahead(t).frames);
  }

  lemma PushTakesFromAhead(s: Tcp, input: bytes, wire: Wire)
    requires Clean(s) && input + wire.line == s.wire.line
    ensures var pushed := s.decoder.Feed(input);
            var t := s.(wire := wire, decoder := s.decoder.(buffer := pushed.buffer));
            Ahead(s).frames == pushed.frames + Ahead(t).frames
  {
    hide WrapperDecoder.Feed, Decode;
    FeedConserves(s.decoder, input, wire.line);
  }

  lemma {:induction false} NextFrameKeepsStory(o: ChannelOptions, s: Tcp)
    requires o.wrapperTcpTraceSink && Clean(s)
    ensures Story(ReceiveNextFrame(o, s).state) == Story(s)
    decreases |s.wire.script|
  {
    hide WrapperDecoder.Feed, Wire.ReadSome, Decode, Decodes, Expected;
    if s.capacity != 0 {
      ReadConserves(s.wire, s.capacity);
      var read := s.wire.ReadSome(s.capacity);
      var status := MapTransportStatus(read.status);
      var s1 := s.(wire := read.wire);
      if read.status == TransportOk && read.data != [] {
        PushTakesFromAhead(s, read.data, read.wire);
        PushKeepsRemaining(s, read.data, read.wire);
        var pushed := s.decoder.Feed(read.data);
        var t := s1.(decoder := s1.decoder.(buffer := pushed.buffer));
        if pushed.verdict.NeedMore? {
          assert [] + Ahead(t).frames == Ahead(t).frames && s.pending + pushed.frames == s.pending;
          NextFrameKeepsStory(o, t);
        } else {
          ShowingDecoded(s, ReceiveNextFrame(o, s).state, pushed.frames);
        }
      } else {
        assert Undecoded(s1) == Undecoded(s);
        ShowingOther(s1, StatusEvent(ReadStatus, status, []));
      }
    }
  }

  lemma {:induction false} AwaitKeepsStory(o: ChannelOptions, s: Tcp)
    requires o.wrapperTcpTraceSink && Clean(s)
    ensures Story(Await(o, s).state) == Story(s)
    decreases |s.wire.script|
  {
    hide Story;
    if s.pending == [] {
      NextFrameKeepsStory(o, s);
      NextFrameConserves(o, s);
      var r := ReceiveNextFrame(o, s);
      if r.status == Ok {
        AwaitKeepsStory(o, r.state);
      }
    }
  }

  lemma CallKeepsStory(o: ChannelOptions, s: Tcp, call: Call)
    requires o.wrapperTcpTraceSink && Clean(s) && call != CallClose
    ensures Story(Apply(o, s, call).state) == Story(s)
  {
    hide Await, Decode, Decodes, Expected;
    AwaitKeepsStory(o, s);
    match call
    case CallSend(apdu) =>
      var f := OutgoingFrame(o, apdu.Bytes());
      ShowingOther(s, EncodedEvent(f, EncodeWpdu(MakeWrapperLimits(o), f).wpdu));
    case _ =>
  }

  lemma {:induction false} RunKeepsStory(o: ChannelOptions, s: Tcp, calls: seq<Call>)
    requires o.wrapperTcpTraceSink && Clean(s) && CallClose !in calls
    ensures Story(Run(o, s, calls).state) == Story(s)
    decreases |calls|
  {
    hide Apply, Clean, Story;
    if calls != [] {
      CallKeepsStory(o, s, calls[0]);
      CallConserves(o, s, calls[0]);
      RunKeepsStory(o, Apply(o, s, calls[0]).state, calls[1..]);
    }
  }

  function UnitOf(f: WrapperFrame): bytes
    requires Sized(f)
  {
    UnitBytes(f.source, f.destination, f.data)
  }

  function UnitsBytes(frames: seq<WrapperFrame>): seq<bytes>
    requires forall i :: 0 <= i < |frames| ==> Sized(frames[i])
  {
    seq(|frames|, i requires 0 <= i < |frames| => UnitOf(frames[i]))
  }

  /** Decoded events against the bytes received. On a stream of data units, over any
      run without a `Close` and under every cutting: the sink has been shown, in
      order and once each, the ports, sizes and data of the units decoded so far;
      of all of them, once everything has been read. */
  lemma DecodedEventsMatchTheBytes(o: ChannelOptions, s: Tcp, frames: seq<WrapperFrame>, calls: seq<Call>)
    requires o.wrapperTcpTraceSink && Idle(o, s) && s.trace == [] && s.wire.peer.NoPeer? && CallClose !in calls
    requires forall i :: 0 <= i < |frames| ==> Sized(frames[i]) && Fits(MakeWrapperLimits(o), frames[i])
    requires s.wire.line == Concat(UnitsBytes(frames))
    ensures var t := Run(o, s, calls).state;
            && Decodes(t.trace) <= Expected(frames)
            && (t.wire.line == [] ==> Decodes(t.trace) == Expected(frames))
  {
    hide Run, WpduBytes, Decode, UnitBytes, Decodes, Expected;
    var limits := MakeWrapperLimits(o);
    forall i | 0 <= i < |frames|
      ensures WpduBytes(frames[i]) == UnitOf(frames[i])
    {
      UnitIsEncoded(frames[i]);
    }
    assert WpdusOf(frames) == UnitsBytes(frames);
    WrapperCodec.DecodeUndoesEncode(limits, frames);
    NothingInNothing(limits);
    assert Undecoded(s) == s.wire.line;
    NothingShown();
    assert Story(s) == [] + Expected(frames) == Expected(frames);
    RunKeepsStory(o, s, calls);
    RunConserves(o, s, calls);
    var t := Run(o, s, calls).state;
    if t.wire.line == [] {
      assert Undecoded(t) == t.decoder.buffer;
      assert Story(t) == Decodes(t.trace) + Expected([]) == Decodes(t.trace);
    }
  }

  lemma NothingShown()
    ensures Decodes([]) == [] && Expected([]) == []
  {}
}
