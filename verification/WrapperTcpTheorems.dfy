/** What WRAPPER/TCP channels promise over whole runs. */
module WrapperTcpTheorems {
  import opened Basics
  import opened Statuses
  import opened StreamDecoding
  import opened WrapperCodec
  import opened ProfileTypes
  import opened Transport
  import opened WrapperTcpSpec

  /** Everything received and not yet decoded, with everything still to come. */
  function Undecoded(s: Tcp): bytes {
    s.decoder.buffer + s.wire.line
  }

  function Ahead(s: Tcp): Drained<WrapperFrame, WrapperStatus> {
    Decode(s.decoder.limits, Undecoded(s))
  }

  /** The APDUs a receiver can still get: the queued ones, then those in the bytes. */
  function Remaining(s: Tcp): seq<bytes> {
    Payloads(s.pending) + Payloads(Ahead(s).frames)
  }

  /** A stream on which no peer reacts and which holds no malformed unit; the
      decoder holds no complete one. */
  ghost predicate Clean(s: Tcp) {
    && s.wire.peer.NoPeer?
    && Ahead(s).error.None?
    && Dry(s.decoder)
  }

  lemma PayloadsAppend(a: seq<WrapperFrame>, b: seq<WrapperFrame>)
    ensures Payloads(a + b) == Payloads(a) + Payloads(b)
  {}

  /** The limits of a channel are the stricter of its own and the library's, when
      the library's frame limit leaves room for its largest data. */
  lemma LimitsAreTheStricter(o: ChannelOptions, f: WrapperFrame)
    requires HEADER_SIZE + o.defaultWrapperLimits.maximumDataSize <= o.defaultWrapperLimits.maximumFrameSize
    ensures Fits(MakeWrapperLimits(o), f) <==> Fits(o.defaultWrapperLimits, f) && WithinMaximum(o, |f.data|)
  {}

  // ---------------------------------------------------------------------
  // Independence of how the stream is cut into reads
  // ---------------------------------------------------------------------

  lemma PushKeepsRemaining(s: Tcp, input: bytes, wire: Wire)
    requires Clean(s) && wire.peer.NoPeer? && input + wire.line == s.wire.line
    ensures var pushed := s.decoder.Feed(input);
            var t := s.(wire := wire, decoder := s.decoder.(buffer := pushed.buffer),
                        pending := s.pending + pushed.frames);
            && !pushed.verdict.Failed?
            && (pushed.verdict.NeedMore? ==> pushed.frames == [])
            && Clean(t) && Remaining(t) == Remaining(s)
  {
    hide WrapperDecoder.Feed, Decode;
    FeedConserves(s.decoder, input, wire.line);
    NothingWithoutVerdict(s.decoder, input);
    var pushed := s.decoder.Feed(input);
    var t := s.(wire := wire, decoder := s.decoder.(buffer := pushed.buffer), pending := s.pending + pushed.frames);
    PayloadsAppend(s.pending, pushed.frames);
    PayloadsAppend(pushed.frames, Ahead(t).frames);
  }

  lemma NothingWithoutVerdict(d: WrapperDecoder, input: bytes)
    ensures d.Feed(input).verdict.NeedMore? ==> d.Feed(input).frames == []
  {}

  lemma {:induction false} NextFrameConserves(o: ChannelOptions, s: Tcp)
    requires Clean(s)
    ensures var t := ReceiveNextFrame(o, s).state; Clean(t) && Remaining(t) == Remaining(s)
    decreases |s.wire.script|
  {
    hide WrapperDecoder.Feed, Wire.ReadSome, Decode, Payloads;
    if s.capacity != 0 {
      ReadConserves(s.wire, s.capacity);
      var read := s.wire.ReadSome(s.capacity);
      var s1 := s.(wire := read.wire);
      if read.status == TransportOk && read.data != [] {
        PushKeepsRemaining(s, read.data, read.wire);
        var pushed := s1.decoder.Feed(read.data);
        if pushed.verdict.NeedMore? {
          assert s.pending + pushed.frames == s.pending;
          NextFrameConserves(o, s1.(decoder := s1.decoder.(buffer := pushed.buffer)));
        }
      } else {
        assert Undecoded(s1) == Undecoded(s);
      }
    }
  }

  lemma {:induction false} AwaitConserves(o: ChannelOptions, s: Tcp)
    requires Clean(s)
    ensures var t := Await(o, s).state; Clean(t) && Remaining(t) == Remaining(s)
    decreases |s.wire.script|
  {
    if s.pending == [] {
      NextFrameConserves(o, s);
      var r := ReceiveNextFrame(o, s);
      if r.status == Ok {
        AwaitConserves(o, r.state);
      }
    }
  }

  lemma TakingTheHead(s: Tcp)
    requires s.pending != []
    ensures Remaining(s) == [s.pending[0].data] + Remaining(s.(pending := s.pending[1..]))
  {
    assert s.pending == [s.pending[0]] + s.pending[1..];
    PayloadsAppend([s.pending[0]], s.pending[1..]);
  }

  /** One call hands over the next APDUs of the stream, or nothing. */
  lemma CallConserves(o: ChannelOptions, s: Tcp, call: Call)
    requires Clean(s) && call != CallClose
    ensures var step := Apply(o, s, call);
            && Clean(step.state)
            && Remaining(s) == step.outcome.returned + Remaining(step.state)
  {
    hide ReceiveApdu, ReceiveApduInto, Decode, Payloads;
    assert [] + Remaining(s) == Remaining(s);
    match call
    case CallReceive => ReceiveConserves(o, s, true, 0);
    case CallReceiveInto(valid, size) => ReceiveConserves(o, s, valid, size);
    case _ =>
  }

  lemma ReceiveConserves(o: ChannelOptions, s: Tcp, valid: bool, size: nat)
    requires Clean(s)
    ensures var v, b := Received(ReceiveApdu(o, s)), Received(ReceiveApduInto(o, s, valid, size));
            && Clean(v.state) && Remaining(s) == v.outcome.returned + Remaining(v.state)
            && Clean(b.state) && Remaining(s) == b.outcome.returned + Remaining(b.state)
  {
    hide Await, Decode, Payloads;
    AwaitConserves(o, s);
    var t := Await(o, s).state;
    assert [] + Remaining(s) == Remaining(s) && [] + Remaining(t) == Remaining(t);
    if t.pending != [] {
      TakingTheHead(t);
    }
  }

  /** However the stream is cut into reads, whatever reads fail in between and
      whichever receive forms and buffer sizes are used, the APDUs returned so
      far followed by those still to come are the APDUs of the stream. */
  lemma {:induction false} RunConserves(o: ChannelOptions, s: Tcp, calls: seq<Call>)
    requires Clean(s) && CallClose !in calls
    ensures var run := Run(o, s, calls);
            && Clean(run.state)
            && Remaining(s) == Returned(run.outcomes) + Remaining(run.state)
    decreases |calls|
  {
    hide Apply, Clean, Remaining;
    if calls == [] {
      assert Returned([]) + Remaining(s) == Remaining(s);
    } else {
      CallConserves(o, s, calls[0]);
      RunConserves(o, Apply(o, s, calls[0]).state, calls[1..]);
    }
  }

  /** The state a channel is in before its first read, and after any `Close`. */
  predicate Idle(o: ChannelOptions, s: Tcp) {
    s.decoder == WrapperDecoder(MakeWrapperLimits(o), []) && s.pending == []
  }

  /** For every list of frames and every cutting of their encodings: nothing is
      lost, merged, repeated or reordered, and once the line is read and the
      queue empty, everything has been returned. */
  lemma StreamIsReceivedExactly(o: ChannelOptions, s: Tcp, frames: seq<WrapperFrame>, calls: seq<Call>)
    requires Idle(o, s) && s.wire.peer.NoPeer? && CallClose !in calls
    requires forall i :: 0 <= i < |frames| ==> Sized(frames[i]) && Fits(MakeWrapperLimits(o), frames[i])
    requires s.wire.line == Concat(WpdusOf(frames))
    ensures var run := Run(o, s, calls);
            && Payloads(frames) == Returned(run.outcomes) + Remaining(run.state)
            && Returned(run.outcomes) <= Payloads(frames)
            && (run.state.wire.line == [] && run.state.pending == [] ==> Returned(run.outcomes) == Payloads(frames))
  {
    hide Run, WpdusOf, Decode;
    var limits := MakeWrapperLimits(o);
    WrapperCodec.DecodeUndoesEncode(limits, frames);
    NothingInNothing(limits);
    assert Undecoded(s) == s.wire.line;
    assert Payloads([]) + Payloads(frames) == Payloads(frames);
    RunConserves(o, s, calls);
    var t := Run(o, s, calls).state;
    if t.wire.line == [] && t.pending == [] {
      assert Undecoded(t) == t.decoder.buffer;
      assert Remaining(t) == [];
    }
  }

  /** Two channels that read the same bytes, cut in different ways, return the same. */
  lemma CuttingDoesNotMatter(o: ChannelOptions, s1: Tcp, s2: Tcp, calls1: seq<Call>, calls2: seq<Call>)
    requires Idle(o, s1) && Idle(o, s2) && s1.wire.line == s2.wire.line
    requires Clean(s1) && s2.wire.peer.NoPeer? && CallClose !in calls1 && CallClose !in calls2
    ensures var run1, run2 := Run(o, s1, calls1), Run(o, s2, calls2);
            && (Returned(run1.outcomes) <= Returned(run2.outcomes)
                || Returned(run2.outcomes) <= Returned(run1.outcomes))
            && (Remaining(run1.state) == [] && Remaining(run2.state) == [] ==>
                  Returned(run1.outcomes) == Returned(run2.outcomes))
  {
    hide Run;
    RunConserves(o, s1, calls1);
    RunConserves(o, s2, calls2);
    var a, b := Returned(Run(o, s1, calls1).outcomes), Returned(Run(o, s2, calls2).outcomes);
    var all := Remaining(s1);
    assert a == all[..|a|] && b == all[..|b|];
  }

  /** Nothing received before a `Close` survives it, even if closing fails: on any
      stream, every run that follows is the one that would have followed without
      `buffer` and `pending`; on a stream of `frames`, it returns only those. */
  lemma CloseForgets(o: ChannelOptions, s: Tcp, buffer: bytes, pending: seq<WrapperFrame>,
                     frames: seq<WrapperFrame>, calls: seq<Call>)
    requires s.decoder.limits == MakeWrapperLimits(o)
    requires forall i :: 0 <= i < |frames| ==> Sized(frames[i]) && Fits(MakeWrapperLimits(o), frames[i])
    ensures var closed := Close(s);
            var other := Close(s.(decoder := s.decoder.(buffer := buffer), pending := pending));
            && Idle(o, closed.state)
            && closed.status == other.status && Run(o, closed.state, calls) == Run(o, other.state, calls)
            && (s.wire.peer.NoPeer? && CallClose !in calls && s.wire.line == Concat(WpdusOf(frames)) ==>
                  Returned(Run(o, closed.state, calls).outcomes) <= Payloads(frames))
  {
    hide Run, WpdusOf;
    if s.wire.peer.NoPeer? && CallClose !in calls && s.wire.line == Concat(WpdusOf(frames)) {
      StreamIsReceivedExactly(o, Close(s).state, frames, calls);
    }
  }

  // ---------------------------------------------------------------------
  // From one channel to another
  // ---------------------------------------------------------------------

  function OutgoingFrames(o: ChannelOptions, apdus: seq<bytes>): seq<WrapperFrame> {
    seq(|apdus|, i requires 0 <= i < |apdus| => OutgoingFrame(o, apdus[i]))
  }

  function Sends(apdus: seq<bytes>): seq<Call> {
    seq(|apdus|, i requires 0 <= i < |apdus| => CallSend(View(apdus[i])))
  }

  lemma FirstOfSends(o: ChannelOptions, s: Tcp, apdus: seq<bytes>)
    requires apdus != []
    ensures var sent := SendApdu(o, s, View(apdus[0]));
            var run, rest := Run(o, s, Sends(apdus)), Run(o, sent.state, Sends(apdus[1..]));
            && run.state == rest.state
            && (AllOk(run.outcomes) ==> sent.status == Ok && AllOk(rest.outcomes))
  {
    assert Sends(apdus)[1..] == Sends(apdus[1..]);
    var sent := SendApdu(o, s, View(apdus[0]));
    var run, rest := Run(o, s, Sends(apdus)), Run(o, sent.state, Sends(apdus[1..]));
    assert run.outcomes == [Outcome(sent.status, [], [])] + rest.outcomes && run.outcomes[0].status == sent.status;
    assert forall i :: 0 <= i < |rest.outcomes| ==> rest.outcomes[i] == run.outcomes[i + 1];
  }

  lemma NoSends(o: ChannelOptions, s: Tcp)
    ensures Run(o, s, Sends([])).state == s
  {}

  lemma SendWritesOneWpdu(o: ChannelOptions, s: Tcp, apdu: bytes)
    requires SendApdu(o, s, View(apdu)).status == Ok
    ensures var f := OutgoingFrame(o, apdu);
            && Sized(f) && Fits(MakeWrapperLimits(o), f)
            && SendApdu(o, s, View(apdu)).state.wire.writes == s.wire.writes + [WpduBytes(f)]
  {}

  /** Every successful send of a list writes exactly its own data unit, within
      the limits of a channel with the same options. */
  lemma {:induction false} SendsWriteWpdus(o: ChannelOptions, s: Tcp, apdus: seq<bytes>)
    requires AllOk(Run(o, s, Sends(apdus)).outcomes)
    ensures var fs := OutgoingFrames(o, apdus);
            && (forall i :: 0 <= i < |fs| ==> Sized(fs[i]) && Fits(MakeWrapperLimits(o), fs[i]))
            && Run(o, s, Sends(apdus)).state.wire.writes == s.wire.writes + WpdusOf(fs)
    decreases |apdus|
  {
    hide WpduBytes, SendApdu, MakeWrapperLimits, Run;
    if apdus == [] {
      assert Run(o, s, Sends([])).state == s by { NoSends(o, s); }
      assert s.wire.writes + [] == s.wire.writes;
    } else {
      FirstOfSends(o, s, apdus);
      SendWritesOneWpdu(o, s, apdus[0]);
      var t := SendApdu(o, s, View(apdus[0])).state;
      SendsWriteWpdus(o, t, apdus[1..]);
      var fs, rest := OutgoingFrames(o, apdus), OutgoingFrames(o, apdus[1..]);
      assert forall i :: 0 < i < |fs| ==> fs[i] == rest[i - 1];
      assert WpdusOf(fs) == [WpduBytes(fs[0])] + WpdusOf(rest);
      assert s.wire.writes + [WpduBytes(fs[0])] + WpdusOf(rest) == s.wire.writes + WpdusOf(fs);
    }
  }

  /** Round trip. If every send of a list returned Ok, then a channel with the
      same options whose line carries what was written returns exactly those
      APDUs in order, however its reads are cut. */
  lemma TcpRoundTrip(o: ChannelOptions, a: Tcp, apdus: seq<bytes>, b: Tcp, calls: seq<Call>)
    requires AllOk(Run(o, a, Sends(apdus)).outcomes) && a.wire.writes == []
    requires Idle(o, b) && b.wire.peer.NoPeer? && CallClose !in calls
    requires b.wire.line == Concat(Run(o, a, Sends(apdus)).state.wire.writes)
    ensures var run := Run(o, b, calls);
            && apdus == Returned(run.outcomes) + Remaining(run.state)
            && (run.state.wire.line == [] && run.state.pending == [] ==> Returned(run.outcomes) == apdus)
  {
    hide Run, WpdusOf;
    SendsWriteWpdus(o, a, apdus);
    var fs := OutgoingFrames(o, apdus);
    assert [] + WpdusOf(fs) == WpdusOf(fs) && Payloads(fs) == apdus;
    StreamIsReceivedExactly(o, b, fs, calls);
  }

  // ---------------------------------------------------------------------
  // Progress
  // ---------------------------------------------------------------------

  /** When reads keep delivering bytes and an APDU has been sent, `ReceiveApdu`
      returns it; it is the next one of the stream. */
  lemma {:induction false} ReceiveFindsTheNext(o: ChannelOptions, s: Tcp)
    requires Clean(s) && Remaining(s) != []
    requires s.wire.open && s.capacity > 0 && Prompt(s.wire.script) && |s.wire.line| <= |s.wire.script|
    ensures var r := ReceiveApdu(o, s);
            && r.status == Ok && r.apdu == Remaining(s)[0] && Remaining(r.state) == Remaining(s)[1..]
  {
    AwaitArrives(o, s);
    AwaitConserves(o, s);
    TakingTheHead(Await(o, s).state);
  }

  lemma {:induction false} AwaitArrives(o: ChannelOptions, s: Tcp)
    requires Clean(s) && Remaining(s) != []
    requires s.wire.open && s.capacity > 0 && Prompt(s.wire.script) && |s.wire.line| <= |s.wire.script|
    ensures Await(o, s).status == Ok
  {
    if s.pending == [] {
      NextFrameArrives(o, s);
      NextFrameConserves(o, s);
    }
  }

  lemma DoneMeansDecoded(d: WrapperDecoder, input: bytes)
    requires input != []
    ensures d.Feed(input).verdict.Done? ==> d.Feed(input).frames != []
  {
    NothingDecodedIsKept(d.limits, d.buffer + input);
  }

  lemma {:induction false} NextFrameArrives(o: ChannelOptions, s: Tcp)
    requires Clean(s) && s.pending == [] && Ahead(s).frames != []
    requires s.wire.open && s.capacity > 0 && Prompt(s.wire.script) && |s.wire.line| <= |s.wire.script|
    ensures var r := ReceiveNextFrame(o, s); r.status == Ok && r.state.pending != []
    decreases |s.wire.script|
  {
    hide WrapperDecoder.Feed, Wire.ReadSome, Decode;
    assert s.decoder.buffer + [] == s.decoder.buffer;
    PromptRead(s.wire, s.capacity);
    var read := s.wire.ReadSome(s.capacity);
    PushKeepsRemaining(s, read.data, read.wire);
    var pushed := s.decoder.Feed(read.data);
    if pushed.verdict.NeedMore? {
      var t := s.(wire := read.wire, decoder := s.decoder.(buffer := pushed.buffer));
      assert s.pending + pushed.frames == s.pending;
      NextFrameArrives(o, t);
    } else {
      DoneMeansDecoded(s.decoder, read.data);
    }
  }

  // ---------------------------------------------------------------------
  // Malformed input
  // ---------------------------------------------------------------------

  lemma {:induction false} AwaitStaysDry(o: ChannelOptions, s: Tcp)
    requires Dry(s.decoder)
    ensures Dry(Await(o, s).state.decoder) && Dry(ReceiveNextFrame(o, s).state.decoder)
    decreases |s.wire.script|
  {
    hide Dry, WrapperDecoder.Feed, Wire.ReadSome;
    var read := s.wire.ReadSome(s.capacity);
    var pushed := s.decoder.Feed(read.data);
    FeedLeavesDry(s.decoder, read.data);
    var t := s.(wire := read.wire, decoder := s.decoder.(buffer := pushed.buffer));
    if s.capacity != 0 && read.status == TransportOk && read.data != []
       && MapWrapperStatus(VerdictStatus(pushed.verdict)) == NeedMoreData {
      AwaitStaysDry(o, t);
    }
    var r := ReceiveNextFrame(o, s);
    if r.status == Ok {
      AwaitStaysDry(o, r.state);
    }
  }

  lemma CallStaysDry(o: ChannelOptions, s: Tcp, call: Call)
    requires Dry(s.decoder)
    ensures Dry(Apply(o, s, call).state.decoder)
  {
    hide Dry, Await, WrapperDecoder.Feed;
    FeedLeavesDry(s.decoder, []);
    AwaitStaysDry(o, s);
  }

  /** Over any run on any stream, malformed or not, no error leaves the decoder
      holding what failed: the next read starts from a clean decoder. */
  lemma {:induction false} DecoderStaysDry(o: ChannelOptions, s: Tcp, calls: seq<Call>)
    requires Dry(s.decoder)
    ensures Dry(Run(o, s, calls).state.decoder)
    decreases |calls|
  {
    hide Dry, Apply;
    if calls != [] {
      CallStaysDry(o, s, calls[0]);
      DecoderStaysDry(o, Apply(o, s, calls[0]).state, calls[1..]);
    }
  }

  // ---------------------------------------------------------------------
  // The trace sink
  // ---------------------------------------------------------------------

  /** Equal up to what the sink was shown. */
  predicate SameButTrace(a: Tcp, b: Tcp) {
    a.(trace := []) == b.(trace := [])
  }

  lemma {:induction false} NextFrameIgnoresSink(o: ChannelOptions, p: ChannelOptions, a: Tcp, b: Tcp)
    requires SameButTrace(a, b) && p == o.(wrapperTcpTraceSink := p.wrapperTcpTraceSink)
    ensures var x, y := ReceiveNextFrame(o, a), ReceiveNextFrame(p, b);
            x.status == y.status && SameButTrace(x.state, y.state)
    decreases |a.wire.script|
  {
    hide WrapperDecoder.Feed, Wire.ReadSome;
    if a.capacity != 0 {
      var read := a.wire.ReadSome(a.capacity);
      if read.status == TransportOk && read.data != [] {
        var pushed := a.decoder.Feed(read.data);
        var a2 := a.(wire := read.wire, decoder := a.decoder.(buffer := pushed.buffer));
        var b2 := b.(wire := read.wire, decoder := b.decoder.(buffer := pushed.buffer));
        if MapWrapperStatus(VerdictStatus(pushed.verdict)) == NeedMoreData {
          NextFrameIgnoresSink(o, p, a2, b2);
        }
      }
    }
  }

  lemma {:induction false} AwaitIgnoresSink(o: ChannelOptions, p: ChannelOptions, a: Tcp, b: Tcp)
    requires SameButTrace(a, b) && p == o.(wrapperTcpTraceSink := p.wrapperTcpTraceSink)
    ensures var x, y := Await(o, a), Await(p, b);
            x.status == y.status && SameButTrace(x.state, y.state)
    decreases |a.wire.script|
  {
    if a.pending == [] {
      NextFrameIgnoresSink(o, p, a, b);
      var x, y := ReceiveNextFrame(o, a), ReceiveNextFrame(p, b);
      if x.status == Ok {
        AwaitIgnoresSink(o, p, x.state, y.state);
      }
    }
  }

  lemma CallIgnoresSink(o: ChannelOptions, p: ChannelOptions, a: Tcp, b: Tcp, call: Call)
    requires SameButTrace(a, b) && p == o.(wrapperTcpTraceSink := p.wrapperTcpTraceSink)
    ensures var x, y := Apply(o, a, call), Apply(p, b, call);
            x.outcome == y.outcome && SameButTrace(x.state, y.state)
  {
    if call.CallReceive? || call.CallReceiveInto? {
      AwaitIgnoresSink(o, p, a, b);
    }
  }

  /** Installing a trace sink changes no status, no APDU, no write and no state. */
  lemma {:induction false} TraceDoesNotInterfere(o: ChannelOptions, p: ChannelOptions, a: Tcp, b: Tcp, calls: seq<Call>)
    requires SameButTrace(a, b) && p == o.(wrapperTcpTraceSink := p.wrapperTcpTraceSink)
    ensures var x, y := Run(o, a, calls), Run(p, b, calls);
            x.outcomes == y.outcomes && SameButTrace(x.state, y.state)
    decreases |calls|
  {
    if calls != [] {
      CallIgnoresSink(o, p, a, b, calls[0]);
      TraceDoesNotInterfere(o, p, Apply(o, a, calls[0]).state, Apply(p, b, calls[0]).state, calls[1..]);
    }
  }

  /** The payloads of the events of one kind, in order. */
  function Shown(kind: TraceKind, trace: seq<TraceEvent>): seq<bytes> {
    if trace == [] then []
    else (if trace[0].kind == kind then [trace[0].payload] else []) + Shown(kind, trace[1..])
  }

  lemma {:induction false} ShownAppend(kind: TraceKind, a: seq<TraceEvent>, b: seq<TraceEvent>)
    ensures Shown(kind, a + b) == Shown(kind, a) + Shown(kind, b)
  {
    if a == [] {
      assert a + b == b;
    } else {
      assert (a + b)[1..] == a[1..] + b;
      ShownAppend(kind, a[1..], b);
    }
  }

  lemma {:induction false} ShownDecoded(frames: seq<WrapperFrame>)
    ensures Shown(DecodedFrame, DecodedEvents(frames)) == Payloads(frames)
    ensures Shown(EncodedFrame, DecodedEvents(frames)) == []
  {
    if frames != [] {
      assert DecodedEvents(frames)[1..] == DecodedEvents(frames[1..]);
      ShownDecoded(frames[1..]);
      assert Payloads(frames) == [frames[0].data] + Payloads(frames[1..]);
    }
  }

  /** What the sink was shown as decoded is `gone` and then the queue; what it
      was shown as encoded is what was written. */
  ghost predicate Accounted(s: Tcp, gone: seq<bytes>) {
    && Shown(DecodedFrame, s.trace) == gone + Payloads(s.pending)
    && Shown(EncodedFrame, s.trace) == s.wire.writes
  }

  /** Showing an event that is neither an encoded nor a decoded frame. */
  lemma ShowStatus(s: Tcp, e: TraceEvent, gone: seq<bytes>)
    requires Accounted(s, gone) && (e.kind == ReadStatus || e.kind == DecodeStatus)
    ensures Accounted(s.(trace := s.trace + [e]), gone)
  {
    ShownAppend(DecodedFrame, s.trace, [e]);
    ShownAppend(EncodedFrame, s.trace, [e]);
  }

  lemma ShowDecoded(s: Tcp, frames: seq<WrapperFrame>, gone: seq<bytes>)
    requires Accounted(s, gone)
    ensures Accounted(s.(trace := s.trace + DecodedEvents(frames), pending := s.pending + frames), gone)
  {
    ShownAppend(DecodedFrame, s.trace, DecodedEvents(frames));
    ShownAppend(EncodedFrame, s.trace, DecodedEvents(frames));
    ShownDecoded(frames);
    PayloadsAppend(s.pending, frames);
  }

  lemma ShowEncoded(s: Tcp, e: TraceEvent, wire: Wire, gone: seq<bytes>)
    requires Accounted(s, gone) && e.kind == EncodedFrame && wire.writes == s.wire.writes + [e.payload]
    ensures Accounted(s.(trace := s.trace + [e], wire := wire), gone)
  {
    ShownAppend(DecodedFrame, s.trace, [e]);
    ShownAppend(EncodedFrame, s.trace, [e]);
    assert Shown(EncodedFrame, [e]) == [e.payload] + Shown(EncodedFrame, []);
  }

  lemma {:induction false} NextFrameIsAccounted(o: ChannelOptions, s: Tcp, gone: seq<bytes>)
    requires o.wrapperTcpTraceSink && Accounted(s, gone)
    ensures Accounted(ReceiveNextFrame(o, s).state, gone)
    decreases |s.wire.script|
  {
    if s.capacity != 0 {
      ReadWritesNothing(s.wire, s.capacity);
      var read := s.wire.ReadSome(s.capacity);
      var status := MapTransportStatus(read.status);
      var s1 := s.(wire := read.wire);
      if status != Ok {
        ShowStatus(s1, StatusEvent(ReadStatus, status, []), gone);
      } else if read.data != [] {
        PushIsAccounted(o, s1, read.data, s.decoder.Feed(read.data), gone);
        var pushed := s.decoder.Feed(read.data);
        if MapWrapperStatus(VerdictStatus(pushed.verdict)) == NeedMoreData {
          NextFrameIsAccounted(o, s1.(decoder := s1.decoder.(buffer := pushed.buffer)), gone);
        }
      }
    }
  }

  lemma PushIsAccounted(
    o: ChannelOptions, s: Tcp, data: bytes, pushed: Pushed<WrapperFrame, WrapperStatus>, gone: seq<bytes>)
    requires o.wrapperTcpTraceSink && Accounted(s, gone)
    ensures var verdict := MapWrapperStatus(VerdictStatus(pushed.verdict));
            var t := s.(decoder := s.decoder.(buffer := pushed.buffer));
            && Accounted(t, gone)
            && Accounted(EmitTrace(o, t, DecodedEvents(pushed.frames)).(pending := t.pending + pushed.frames), gone)
            && Accounted(EmitTrace(o, t, [StatusEvent(DecodeStatus, verdict, data)]).(decoder := t.decoder.Reset()),
                         gone)
  {
    var t := s.(decoder := s.decoder.(buffer := pushed.buffer));
    ShowDecoded(t, pushed.frames, gone);
    ShowStatus(t.(decoder := t.decoder.Reset()),
               StatusEvent(DecodeStatus, MapWrapperStatus(VerdictStatus(pushed.verdict)), data), gone);
  }

  lemma {:induction false} AwaitIsAccounted(o: ChannelOptions, s: Tcp, gone: seq<bytes>)
    requires o.wrapperTcpTraceSink && Accounted(s, gone)
    ensures Accounted(Await(o, s).state, gone)
    decreases |s.wire.script|
  {
    if s.pending == [] {
      NextFrameIsAccounted(o, s, gone);
      var r := ReceiveNextFrame(o, s);
      if r.status == Ok {
        AwaitIsAccounted(o, r.state, gone);
      }
    }
  }

  lemma SendIsAccounted(o: ChannelOptions, s: Tcp, gone: seq<bytes>, apdu: ByteView)
    requires o.wrapperTcpTraceSink && Accounted(s, gone)
    ensures Accounted(SendApdu(o, s, apdu).state, gone)
  {
    var f := OutgoingFrame(o, apdu.Bytes());
    var wpdu := EncodeWpdu(MakeWrapperLimits(o), f).wpdu;
    ShowEncoded(s, EncodedEvent(f, wpdu), s.wire.WriteAll(wpdu).wire, gone);
  }

  lemma ReceiveIsAccounted(o: ChannelOptions, s: Tcp, gone: seq<bytes>, valid: bool, size: nat)
    requires o.wrapperTcpTraceSink && Accounted(s, gone)
    ensures var v, b := ReceiveApdu(o, s), ReceiveApduInto(o, s, valid, size);
            && Accounted(v.state, gone + Received(v).outcome.returned)
            && Accounted(b.state, gone + Received(b).outcome.returned)
  {
    AwaitIsAccounted(o, s, gone);
    HeadIsAccounted(Await(o, s).state, gone);
    assert gone + [] == gone;
  }

  lemma CallIsAccounted(o: ChannelOptions, s: Tcp, gone: seq<bytes>, call: Call)
    requires o.wrapperTcpTraceSink && Accounted(s, gone)
    ensures var step := Apply(o, s, call);
            Accounted(step.state, gone + (step.outcome.returned + step.outcome.dropped))
  {
    var step := Apply(o, s, call);
    assert step.outcome.dropped == [] ==> step.outcome.returned + step.outcome.dropped == step.outcome.returned;
    match call
    case CallSend(apdu) => SendIsAccounted(o, s, gone, apdu); assert gone + [] == gone;
    case CallOpen => assert gone + [] == gone;
    case CallClose => assert [] + step.outcome.dropped == step.outcome.dropped;
    case CallReceive => ReceiveIsAccounted(o, s, gone, true, 0);
    case CallReceiveInto(valid, size) => ReceiveIsAccounted(o, s, gone, valid, size);
  }

  lemma HeadIsAccounted(s: Tcp, gone: seq<bytes>)
    requires Accounted(s, gone)
    ensures s.pending != [] ==> Accounted(s.(pending := s.pending[1..]), gone + [s.pending[0].data])
  {
    if s.pending != [] {
      assert s.pending == [s.pending[0]] + s.pending[1..];
      PayloadsAppend([s.pending[0]], s.pending[1..]);
    }
  }

  /** Over any run, the decoded frames the sink was shown are, in order, the
      APDUs that left the queue (returned, or dropped by `Close`) and then those
      still queued; the encoded ones are the attempted writes, one to one. */
  lemma {:induction false} TraceAccountsForEverything(o: ChannelOptions, s: Tcp, gone: seq<bytes>, calls: seq<Call>)
    requires o.wrapperTcpTraceSink && Accounted(s, gone)
    ensures var run := Run(o, s, calls); Accounted(run.state, gone + Left(run.outcomes))
    decreases |calls|
  {
    hide Accounted, Apply;
    if calls == [] {
      assert gone + Left([]) == gone;
    } else {
      var step := Apply(o, s, calls[0]);
      var left := step.outcome.returned + step.outcome.dropped;
      CallIsAccounted(o, s, gone, calls[0]);
      TraceAccountsForEverything(o, step.state, gone + left, calls[1..]);
      var rest := Left(Run(o, step.state, calls[1..]).outcomes);
      assert (gone + left) + rest == gone + (left + rest);
    }
  }

  // ---------------------------------------------------------------------
  // The two receive forms
  // ---------------------------------------------------------------------

  /** With room for the APDU the caller-buffer form is the vector form; with
      too little room it keeps the APDU at the head of the queue. */
  lemma ReceiveFormsAgree(o: ChannelOptions, s: Tcp, size: nat)
    ensures var v, b := ReceiveApdu(o, s), ReceiveApduInto(o, s, true, size);
            if v.status == Ok && size < |v.apdu| then
              && b.status == OutputBufferTooSmall
              && Payloads(b.state.pending) == [v.apdu] + Payloads(v.state.pending)
              && b.state == v.state.(pending := b.state.pending)
            else b == v
  {
    var t := Await(o, s).state;
    if t.pending != [] {
      assert t.pending == [t.pending[0]] + t.pending[1..];
      PayloadsAppend([t.pending[0]], t.pending[1..]);
    }
  }
}
