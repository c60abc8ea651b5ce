/** Conservation over whole runs of an HDLC channel: of link frames under two
    consumers, of APDUs, and of writes. */
module HdlcBooks {
  import opened Basics
  import opened Statuses
  import opened HdlcCodec
  import opened HdlcSession
  import opened ProfileTypes
  import opened Transport
  import opened HdlcChannelSpec
  import HdlcDelivery
  import LlcCodec

  /** What was concluded from the event before; one more event, and it is gone. */
  datatype News =
    | NoNews
    | JustTaken(frame: Frame)         // this frame was handed over
    | JustWhole(frame: Frame)         // the reassembler gave this frame
    | JustAccepted(frame: Frame)      // the session accepted this frame

  /** Totals read off a log. `gone`: frames handed over or thrown away, in
      order; `left`: APDUs returned or thrown away, in order; `parts`: the
      segments of the field being gathered; `ordered`: every decode happened when
      all earlier frames were gone; `vouched`: every frame shown to the
      reassembler had just been handed over, every frame the session accepted
      had just been handed over or is what the gathered segments and the one
      just handed over join to, and every APDU was queued right after the
      session accepted the frame that carries it. */
  datatype Ledger = Ledger(
    decoded: seq<Frame>,
    taken: seq<Frame>,
    gone: seq<Frame>,
    queued: seq<bytes>,
    returned: seq<bytes>,
    left: seq<bytes>,
    sent: seq<bytes>,
    news: News,
    parts: seq<Frame>,
    ordered: bool,
    vouched: bool)

  predicate Carries(f: Frame, apdu: bytes) {
    LlcCodec.DecodeLpdu(f.information) == LlcCodec.Success(apdu)
  }

  /** The frame a list of segments joins to: the last of them with all the information. */
  function Joined(segments: seq<Frame>): Frame
    requires segments != []
  {
    segments[|segments| - 1].(information := Concat(HdlcDelivery.Informations(segments)))
  }

  /** Showing `f` to the reassembler, with this result. */
  function EnterAssembled(l: Ledger, f: Frame, status: HdlcStatus): Ledger {
    if status == HdlcSegmentationIncomplete then l.(parts := l.parts + [f])
    else if status != HdlcOk then l.(parts := [])
    else if f.control.Information? then l.(parts := [], news := JustWhole(Joined(l.parts + [f])))
    else l.(news := JustWhole(f))
  }

  function Enter(ledger: Ledger, e: Event): Ledger {
    var before := ledger.news;
    var l := ledger.(news := NoNews);
    match e
    case Decoded(frames) => l.(decoded := l.decoded + frames, ordered := l.ordered && l.decoded == l.gone)
    case Taken(f) => l.(taken := l.taken + [f], gone := l.gone + [f], news := JustTaken(f))
    case Flushed(frames) => l.(gone := l.gone + frames, parts := [])
    case Assembled(f, status) => EnterAssembled(l.(vouched := l.vouched && before == JustTaken(f)), f, status)
    case Accepted(f) =>
      l.(vouched := l.vouched && (before == JustTaken(f) || before == JustWhole(f)), news := JustAccepted(f))
    case Queued(apdu) =>
      l.(queued := l.queued + [apdu], vouched := l.vouched && before.JustAccepted? && Carries(before.frame, apdu))
    case Returned(apdu) => l.(returned := l.returned + [apdu], left := l.left + [apdu])
    case Dropped(apdus) => l.(left := l.left + apdus)
    case Sent(b) => l.(sent := l.sent + [b])
    case _ => l
  }

  function Account(log: seq<Event>): Ledger {
    if log == [] then Ledger([], [], [], [], [], [], [], NoNews, [], true, true)
    else Enter(Account(log[..|log| - 1]), log[|log| - 1])
  }

  lemma AccountOneMore(log: seq<Event>, e: Event)
    ensures Account(log + [e]) == Enter(Account(log), e)
  {
    assert (log + [e])[..|log + [e]| - 1] == log;
  }

  lemma AccountTwoMore(log: seq<Event>, e: Event, f: Event)
    ensures Account(log + [e, f]) == Enter(Enter(Account(log), e), f)
  {
    AccountOneMore(log, e);
    AccountOneMore(log + [e], f);
    assert log + [e, f] == log + [e] + [f];
  }

  /** `parts` are segments of one information field, the last still to come, and
      `partial` is what they join to. */
  predicate Gathering(parts: seq<Frame>, partial: Option<Frame>) {
    && (forall i :: 0 <= i < |parts| ==>
          parts[i].segmented && parts[i].control.Information? && Reassembler.SameLink(parts[0], parts[i]))
    && partial == (if parts == [] then None else Some(Joined(parts)))
  }

  /** What had been written and returned before the books were opened, the
      returned APDUs being carried forward, and whether there is a session. */
  datatype Base = Base(written: seq<bytes>, returned: seq<bytes>, session: bool)

  /** Frames decoded are frames gone and then frames queued; APDUs queued are
      APDUs that left and then APDUs pending; what was sent is what the stream
      was asked to write since `base`; the reassembler holds what the parts join to. */
  predicate Balanced(l: Ledger, c: Chan, base: Base) {
    && l.decoded == l.gone + c.pendingFrames
    && l.queued == l.left + c.pendingApdus
    && c.wire.writes == base.written + l.sent
    && l.returned == base.returned
    && Gathering(l.parts, c.reassembler.partial)
    && l.ordered && (base.session ==> l.vouched)
  }

  /** Beside the balance, no error ever leaves the decoder holding what failed. */
  predicate BooksBalance(c: Chan, base: Base) {
    Balanced(Account(c.log), c, base) && Dry(c.decoder)
  }

  /** The APDU a frame carries on a channel without a session. */
  function ApduOf(o: ChannelOptions, f: Frame): seq<bytes> {
    var lsdu := LlcCodec.DecodeLpdu(f.information);
    if f.segmented || lsdu.Failure? || !WithinMaximum(o, |lsdu.value|) then [] else [lsdu.value]
  }

  function ApdusIn(o: ChannelOptions, frames: seq<Frame>): seq<bytes> {
    if frames == [] then [] else ApduOf(o, frames[0]) + ApdusIn(o, frames[1..])
  }

  lemma {:induction false} ApdusInSplit(o: ChannelOptions, left: seq<Frame>, right: seq<Frame>)
    ensures ApdusIn(o, left + right) == ApdusIn(o, left) + ApdusIn(o, right)
    decreases |left|
  {
    hide ApduOf;
    if left == [] {
      assert left + right == right;
    } else {
      assert (left + right)[1..] == left[1..] + right;
      ApdusInSplit(o, left[1..], right);
    }
  }

  /** On a channel without a session, the APDUs queued are those of the frames taken. */
  predicate Faithful(o: ChannelOptions, c: Chan) {
    !o.hdlcUseSession ==> Account(c.log).queued == ApdusIn(o, Account(c.log).taken)
  }

  // ---------------------------------------------------------------------
  // Frames
  // ---------------------------------------------------------------------

  /** What a receive of one frame does to the books: `frame` is taken, and
      nothing else leaves. */
  predicate OneFrameTaken(c: Chan, d: Chan, frame: Option<Frame>) {
    var l, m := Account(c.log), Account(d.log);
    && m.taken == l.taken + (if frame.Some? then [frame.value] else [])
    && m == l.(decoded := m.decoded, taken := m.taken, gone := m.gone, news := m.news, ordered := m.ordered)
    && (frame.Some? ==> m.news == JustTaken(frame.value))
  }

  lemma {:induction false} PullBalances(c: Chan, base: Base)
    requires BooksBalance(c, base) && c.pendingFrames == []
    ensures var r := Pull(c);
            && BooksBalance(r.chan, base) && OneFrameTaken(c, r.chan, r.frame)
            && (r.status != Ok ==> r.frame == None && r.chan.pendingFrames == [])
            && r.chan.pendingApdus == c.pendingApdus
    decreases |c.wire.script|
  {
    hide HdlcDecoder.Feed, Wire.ReadSome, Account, Dry, Gathering;
    ReadWritesNothing(c.wire, c.capacity);
    var read := c.wire.ReadSome(c.capacity);
    FeedLeavesDry(c.decoder, read.data);
    var pushed := c.decoder.Feed(read.data);
    var next := c.(wire := read.wire, decoder := c.decoder.(buffer := pushed.buffer));
    assert Account(c.log).taken + [] == Account(c.log).taken;
    if pushed.frames != [] && !pushed.verdict.Failed? {
      DecodedBalances(next, pushed.frames, base);
    }
    if read.status == TransportOk && read.data != [] && MapHdlcStatus(VerdictStatus(pushed.verdict)) == NeedMoreData {
      PullBalances(next, base);
    }
  }

  lemma DecodedBalances(c: Chan, frames: seq<Frame>, base: Base)
    requires BooksBalance(c, base) && c.pendingFrames == [] && frames != []
    ensures var d := c.(pendingFrames := c.pendingFrames + frames[1..],
                        log := c.log + [Decoded(frames), Taken(frames[0])]);
            BooksBalance(d, base) && OneFrameTaken(c, d, Some(frames[0]))
  {
    hide Account, Dry;
    AccountTwoMore(c.log, Decoded(frames), Taken(frames[0]));
    assert frames == [frames[0]] + frames[1..];
  }

  lemma ReceivingBalances(c: Chan, base: Base)
    requires BooksBalance(c, base)
    ensures var r := ReceiveDecodedFrame(c);
            && BooksBalance(r.chan, base) && OneFrameTaken(c, r.chan, if r.status == Ok then r.frame else None)
            && r.chan.pendingApdus == c.pendingApdus
  {
    hide Pull, Account, Dry;
    if c.pendingFrames != [] {
      AccountOneMore(c.log, Taken(c.pendingFrames[0]));
      assert c.pendingFrames == [c.pendingFrames[0]] + c.pendingFrames[1..];
    } else {
      PullBalances(c, base);
    }
  }

  // ---------------------------------------------------------------------
  // Calls of a channel in session mode that take control frames
  // ---------------------------------------------------------------------

  lemma WaitingBalances(c: Chan, base: Base)
    requires BooksBalance(c, base)
    ensures BooksBalance(ReceiveSessionControlFrame(c).chan, base)
  {
    hide ReceiveDecodedFrame, Account, Dry;
    AccountOneMore(c.log, Polled);
    ReceivingBalances(Note(c, Polled), base);
    var r := ReceiveDecodedFrame(Note(c, Polled));
    if r.status == Ok {
      HearingBalances(r.chan, r.frame.value, base);
    }
  }

  lemma WritingBalances(c: Chan, b: bytes, base: Base)
    requires BooksBalance(c, base)
    ensures BooksBalance(WriteFrameBytes(c, b).chan, base)
  {
    hide Account, Dry;
    AccountOneMore(c.log, Sent(b));
  }

  lemma SleepingBalances(o: ChannelOptions, c: Chan, base: Base)
    requires BooksBalance(c, base)
    ensures BooksBalance(SleepBeforeRetry(o, c).chan, base)
  {
    hide Account, Dry, Gathering;
  }

  lemma {:induction false} RetryingBalances(o: ChannelOptions, c: Chan, b: bytes, attempt: nat, base: Base)
    requires attempt <= o.hdlcRetryCount && BooksBalance(c, base)
    ensures BooksBalance(AwaitControlFrame(o, c, b, attempt).chan, base)
    decreases o.hdlcRetryCount - attempt
  {
    hide ReceiveSessionControlFrame, SleepBeforeRetry, WriteFrameBytes, BooksBalance;
    WaitingBalances(c, base);
    SleepingBalances(o, ReceiveSessionControlFrame(c).chan, base);
    var slept := SleepBeforeRetry(o, ReceiveSessionControlFrame(c).chan);
    WritingBalances(slept.chan, b, base);
    var next := WriteFrameBytes(slept.chan, b);
    if attempt < o.hdlcRetryCount {
      RetryingBalances(o, next.chan, b, attempt + 1, base);
    }
  }

  lemma SendingBalances(o: ChannelOptions, c: Chan, b: bytes, base: Base)
    requires BooksBalance(c, base)
    ensures BooksBalance(WriteAndAwait(o, c, b).chan, base)
  {
    hide WriteFrameBytes, AwaitControlFrame, BooksBalance;
    WritingBalances(c, b, base);
    RetryingBalances(o, WriteFrameBytes(c, b).chan, b, 0, base);
  }

  lemma ChunkBalances(o: ChannelOptions, c: Chan, information: bytes, final: bool, base: Base)
    requires BooksBalance(c, base)
    ensures BooksBalance(SendChunk(o, c, information, final).chan, base)
  {
    hide ReceiveSessionControlFrame, WriteAndAwait, Account, Dry, Gathering;
    WaitingBalances(c, base);
    var ready := if c.session.CanSendInformationFrame() then c else ReceiveSessionControlFrame(c).chan;
    var built := BuildSessionInformationFrame(ready, information, !final, final);
    assert built.chan == ready.(session := built.chan.session);
    SendingBalances(o, built.chan, built.frameBytes, base);
  }

  lemma {:induction false} ChunksBalance(
    o: ChannelOptions, c: Chan, lpdu: bytes, chunk: nat, count: nat, i: nat, offset: nat, base: Base)
    requires BooksBalance(c, base) && i <= count && offset <= |lpdu|
    ensures BooksBalance(SendChunks(o, c, lpdu, chunk, count, i, offset).chan, base)
    decreases count - i
  {
    hide SendChunk, BooksBalance;
    if i < count {
      var size := CurrentSize(lpdu, chunk, offset);
      ChunkBalances(o, c, lpdu[offset..offset + size], i + 1 == count, base);
      ChunksBalance(o, SendChunk(o, c, lpdu[offset..offset + size], i + 1 == count).chan,
                    lpdu, chunk, count, i + 1, offset + size, base);
    }
  }

  // ---------------------------------------------------------------------
  // Each call
  // ---------------------------------------------------------------------

  lemma EnsuringBalances(o: ChannelOptions, c: Chan, base: Base)
    requires BooksBalance(c, base)
    ensures BooksBalance(EnsureSession(o, c).chan, base)
  {
    hide Account, Dry;
    if MakeHdlcSessionOptions(o).Success? {
      FeedLeavesDry(HdlcDecoder(MakeHdlcSessionOptions(o).value.limits, []), []);
    }
    AccountTwoMore(c.log, Flushed(c.pendingFrames), Renewed);
  }

  lemma ConnectBalances(o: ChannelOptions, c: Chan, base: Base)
    requires BooksBalance(c, base)
    ensures BooksBalance(ConnectDataLink(o, c).chan, base)
  {
    hide WriteAndAwait, EnsureSession, Account;
    EnsuringBalances(o, c, base);
    var ready := EnsureSession(o, c).chan;
    var built := ready.session.BuildConnectRequest();
    SendingBalances(o, ready.(session := built.session), built.frameBytes, base);
  }

  lemma AcceptBalances(o: ChannelOptions, c: Chan, base: Base)
    requires BooksBalance(c, base)
    ensures BooksBalance(AcceptDataLink(o, c).chan, base)
  {
    hide WriteFrameBytes, ReceiveSessionControlFrame, EnsureSession, Account;
    EnsuringBalances(o, c, base);
    WaitingBalances(EnsureSession(o, c).chan, base);
    var heard := ReceiveSessionControlFrame(EnsureSession(o, c).chan).chan;
    var built := heard.session.BuildConnectResponse();
    WritingBalances(heard.(session := built.session), built.frameBytes, base);
  }

  lemma DisconnectBalances(o: ChannelOptions, c: Chan, base: Base)
    requires BooksBalance(c, base)
    ensures BooksBalance(DisconnectDataLink(o, c).chan, base)
  {
    hide WriteAndAwait, Account;
    var built := c.session.BuildDisconnectRequest();
    SendingBalances(o, c.(session := built.session), built.frameBytes, base);
  }

  lemma SendBalances(o: ChannelOptions, c: Chan, apdu: ByteView, base: Base)
    requires BooksBalance(c, base) && Faithful(o, c)
    ensures BooksBalance(SendApdu(o, c, apdu).chan, base) && Faithful(o, SendApdu(o, c, apdu).chan)
  {
    hide SendChunks, BuildFrame, Account, Dry, Gathering;
    var encoded := LlcCodec.EncodeLpdu(o.hdlcDirection, apdu.Bytes());
    if encoded.Success? {
      var lpdu := encoded.value;
      if o.hdlcUseSession {
        var chunk := ChunkSize(c, lpdu);
        ChunksBalance(o, InstallLimit(c), lpdu, chunk, FrameCount(|lpdu|, chunk), 0, 0, base);
      } else {
        WritingBalances(c, BuildFrame(o, c, lpdu).frameBytes, base);
        AccountOneMore(c.log, Sent(BuildFrame(o, c, lpdu).frameBytes));
      }
    }
  }

  lemma CloseBalances(o: ChannelOptions, c: Chan, base: Base)
    requires BooksBalance(c, base) && Faithful(o, c)
    ensures BooksBalance(Close(c).chan, base) && Faithful(o, Close(c).chan)
  {
    hide Account, Dry;
    FeedLeavesDry(c.decoder, []);
    AccountTwoMore(c.log, Flushed(c.pendingFrames), Dropped(c.pendingApdus));
    assert Account(c.log).gone + c.pendingFrames + [] == Account(c.log).gone + c.pendingFrames;
    assert Account(c.log).left + c.pendingApdus + [] == Account(c.log).left + c.pendingApdus;
  }

  /** What decoding one frame queues. */
  predicate Queues(c: Chan, d: Chan, apdus: seq<bytes>) {
    var l, m := Account(c.log), Account(d.log);
    m == l.(queued := l.queued + apdus, sent := m.sent, news := m.news, vouched := m.vouched)
  }

  lemma CompleteInformationBalances(o: ChannelOptions, c: Chan, f: Frame, base: Base)
    requires BooksBalance(c, base) && (base.session ==> Account(c.log).news == JustAccepted(f))
    ensures var d := DecodeCompleteInformation(o, c, f).chan;
            BooksBalance(d, base) && Queues(c, d, ApduOf(o, f.(segmented := false)))
  {
    hide Account, Dry;
    var decoded := LlcCodec.DecodeLpdu(f.information);
    if decoded.Success? {
      AccountOneMore(c.log, Queued(decoded.value));
    }
    assert Account(c.log).queued + [] == Account(c.log).queued;
  }

  /** The reassembler does what joining the parts says. */
  lemma ReassemblerJoins(l: Ledger, r: Reassembler, f: Frame)
    requires Gathering(l.parts, r.partial)
    ensures var p := r.PushFrame(f);
            var m := EnterAssembled(l, f, p.status);
            var after := if p.status == HdlcOk || p.status == HdlcSegmentationIncomplete then p.reassembler
                         else p.reassembler.Reset();
            && Gathering(m.parts, after.partial)
            && (p.status == HdlcOk ==> m.news == JustWhole(p.completed))
            && p.status != HdlcNeedMoreData
  {
    hide Joined;
    JoinedOneMore(l.parts, f);
    if l.parts != [] {
      assert Reassembler.SameLink(l.parts[0], l.parts[|l.parts| - 1]);
    }
  }

  lemma JoinedOneMore(parts: seq<Frame>, f: Frame)
    ensures Joined(parts + [f])
         == f.(information := if parts == [] then f.information else Joined(parts).information + f.information)
    ensures parts != [] ==> Reassembler.SameLink(Joined(parts), parts[|parts| - 1])
  {
    assert HdlcDelivery.Informations(parts + [f]) == HdlcDelivery.Informations(parts) + [f.information];
    ConcatAppend(HdlcDelivery.Informations(parts), f.information);
    assert [] + f.information == f.information;
  }

  lemma AssemblingBalances(c: Chan, f: Frame, base: Base)
    requires BooksBalance(c, base) && Account(c.log).news == JustTaken(f)
    ensures var p := c.reassembler.PushFrame(f);
            var d := Note(c, Assembled(f, p.status)).(reassembler := p.reassembler);
            && p.status != HdlcNeedMoreData
            && (if p.status == HdlcOk then BooksBalance(d, base) && Account(d.log).news == JustWhole(p.completed)
                else if p.status == HdlcSegmentationIncomplete then BooksBalance(d, base)
                else BooksBalance(d.(reassembler := p.reassembler.Reset()), base))
  {
    hide Account, Dry, Gathering, Joined, Reassembler.PushFrame;
    AccountOneMore(c.log, Assembled(f, c.reassembler.PushFrame(f).status));
    ReassemblerJoins(Account(c.log).(news := NoNews), c.reassembler, f);
  }

  lemma HearingBalances(c: Chan, f: Frame, base: Base)
    requires BooksBalance(c, base)
    requires Account(c.log).news == JustTaken(f) || Account(c.log).news == JustWhole(f)
    ensures var r := Hear(c, f);
            BooksBalance(r.chan, base) && (r.status == Ok ==> Account(r.chan.log).news == JustAccepted(f))
  {
    hide Account, Dry, Session.ReceiveFrame, Gathering;
    AccountOneMore(c.log, Accepted(f));
  }

  lemma SegmentsCarryNothing(o: ChannelOptions, f: Frame)
    ensures if f.segmented then ApduOf(o, f) == [] else ApduOf(o, f) == ApduOf(o, f.(segmented := false))
  {}

  lemma DecodingBalances(o: ChannelOptions, c: Chan, f: Frame, base: Base)
    requires BooksBalance(c, base) && base.session == o.hdlcUseSession && Account(c.log).news == JustTaken(f)
    ensures var d := DecodeFrameToPendingApdu(o, c, f).chan;
            && BooksBalance(d, base)
            && (!o.hdlcUseSession ==> Queues(c, d, ApduOf(o, f)))
  {
    hide Account, Dry, Gathering, DecodeCompleteInformation, Session.ReceiveFrame, WriteFrameBytes, ApduOf;
    hide Reassembler.PushFrame, Session.BuildReceiveReadyFrame;
    assert Account(c.log).queued + [] == Account(c.log).queued;
    if !o.hdlcUseSession {
      CompleteInformationBalances(o, c, f, base);
      SegmentsCarryNothing(o, f);
    } else {
      AssemblingBalances(c, f, base);
      var joined := c.reassembler.PushFrame(f);
      var d := Note(c, Assembled(f, joined.status)).(reassembler := joined.reassembler);
      if joined.status == HdlcOk {
        HearingBalances(d, joined.completed, base);
      }
      var heard := Hear(d, joined.completed);
      if joined.status == HdlcOk && heard.status == Ok {
        CompleteInformationBalances(o, heard.chan, joined.completed, base);
        var decoded := DecodeCompleteInformation(o, heard.chan, joined.completed).chan;
        var built := decoded.session.BuildReceiveReadyFrame(true);
        WritingBalances(decoded.(session := built.session), built.frameBytes, base);
      }
    }
  }

  lemma FaithfulAfterDecoding(o: ChannelOptions, c: Chan, taken: Chan, f: Frame, d: Chan)
    requires Faithful(o, c) && OneFrameTaken(c, taken, Some(f))
    requires !o.hdlcUseSession ==> Queues(taken, d, ApduOf(o, f))
    ensures Faithful(o, d)
  {
    hide Account, ApduOf;
    ApdusInSplit(o, Account(c.log).taken, [f]);
    assert ApdusIn(o, [f]) == ApduOf(o, f) + ApdusIn(o, []);
  }

  lemma {:induction false} NextApduBalances(o: ChannelOptions, c: Chan, base: Base)
    requires BooksBalance(c, base) && Faithful(o, c) && base.session == o.hdlcUseSession
    ensures var d := ReceiveNextApdu(o, c).chan; BooksBalance(d, base) && Faithful(o, d)
    decreases |c.wire.script|, |c.pendingFrames|
  {
    hide ReceiveDecodedFrame, DecodeFrameToPendingApdu, Account, BooksBalance;
    ReceivingBalances(c, base);
    assert Account(c.log).taken + [] == Account(c.log).taken;
    var received := ReceiveDecodedFrame(c);
    if received.status == Ok {
      var f := received.frame.value;
      var r := DecodeFrameToPendingApdu(o, received.chan, f);
      DecodingBalances(o, received.chan, f, base);
      FaithfulAfterDecoding(o, c, received.chan, f, r.chan);
      if r.status == NeedMoreData || (r.status == Ok && r.chan.pendingApdus == []) {
        NextApduBalances(o, r.chan, base);
      }
    }
  }

  lemma ReceiveBalances(o: ChannelOptions, c: Chan, valid: bool, size: nat, base: Base)
    requires BooksBalance(c, base) && Faithful(o, c) && base.session == o.hdlcUseSession
    ensures var v, b := Received(ReceiveApdu(o, c)), Received(ReceiveApduInto(o, c, valid, size));
            && BooksBalance(v.chan, base.(returned := base.returned + v.outcome.returned)) && Faithful(o, v.chan)
            && BooksBalance(b.chan, base.(returned := base.returned + b.outcome.returned)) && Faithful(o, b.chan)
  {
    hide ReceiveNextApdu, BooksBalance, Faithful, TakeApdu;
    NextApduBalances(o, c, base);
    assert base.returned + [] == base.returned;
    TakingBalances(o, Await(o, c).chan, base);
  }

  lemma TakingBalances(o: ChannelOptions, c: Chan, base: Base)
    requires BooksBalance(c, base) && Faithful(o, c)
    ensures c.pendingApdus != [] ==>
              && BooksBalance(TakeApdu(c), base.(returned := base.returned + [c.pendingApdus[0]]))
              && Faithful(o, TakeApdu(c))
  {
    hide Account, ApdusIn;
    if c.pendingApdus != [] {
      AccountOneMore(c.log, Returned(c.pendingApdus[0]));
      assert c.pendingApdus == [c.pendingApdus[0]] + c.pendingApdus[1..];
    }
  }

  lemma CallBalances(o: ChannelOptions, c: Chan, call: Call, base: Base)
    requires BooksBalance(c, base) && Faithful(o, c) && base.session == o.hdlcUseSession
    ensures var step := Apply(o, c, call);
            BooksBalance(step.chan, base.(returned := base.returned + step.outcome.returned)) && Faithful(o, step.chan)
  {
    hide BooksBalance, ConnectDataLink, AcceptDataLink, DisconnectDataLink, SendApdu,
      ReceiveApdu, ReceiveApduInto, Close, Account;
    assert base.returned + [] == base.returned;
    match call
    case CallOpen => OpenBalances(o, c, base);
    case CallClose => CloseBalances(o, c, base);
    case CallConnect => ConnectBalances(o, c, base); LinkCallsNeedASession(o, c);
    case CallAccept => AcceptBalances(o, c, base); LinkCallsNeedASession(o, c);
    case CallDisconnect => DisconnectBalances(o, c, base); LinkCallsNeedASession(o, c);
    case CallSend(apdu) => SendBalances(o, c, apdu, base);
    case CallReceive => ReceiveBalances(o, c, true, 0, base);
    case CallReceiveInto(valid, size) => ReceiveBalances(o, c, valid, size, base);
  }

  lemma OpenBalances(o: ChannelOptions, c: Chan, base: Base)
    requires BooksBalance(c, base) && Faithful(o, c)
    ensures BooksBalance(Open(c).chan, base) && Faithful(o, Open(c).chan)
  {}

  lemma LinkCallsNeedASession(o: ChannelOptions, c: Chan)
    ensures !o.hdlcUseSession ==>
              ConnectDataLink(o, c) == AcceptDataLink(o, c) == DisconnectDataLink(o, c) == Reply(UnsupportedFeature, c)
  {}

  lemma {:induction false} RunBalances(o: ChannelOptions, c: Chan, calls: seq<Call>, base: Base)
    requires BooksBalance(c, base) && Faithful(o, c) && base.session == o.hdlcUseSession
    ensures var run := Run(o, c, calls);
            BooksBalance(run.chan, base.(returned := base.returned + AllReturned(run.outcomes)))
            && Faithful(o, run.chan)
    decreases |calls|
  {
    hide BooksBalance, Faithful, Apply;
    if calls == [] {
      assert base.returned + [] == base.returned;
    } else {
      CallBalances(o, c, calls[0], base);
      var step := Apply(o, c, calls[0]);
      RunBalances(o, step.chan, calls[1..], base.(returned := base.returned + step.outcome.returned));
      var rest := AllReturned(Run(o, step.chan, calls[1..]).outcomes);
      assert (base.returned + step.outcome.returned) + rest == base.returned + (step.outcome.returned + rest);
    }
  }

  /** Over every run, on any stream: each frame a successful decode produced was
      handed over once, in line order, or thrown away by a `Close` or a new
      session, or is still queued; each APDU queued was returned, in order, or
      dropped by a `Close`, or is still pending; the log shows exactly the
      attempted writes; no error leaves the decoder holding what failed. Without
      a session the APDUs queued are exactly those carried by the frames taken.
      With one, each was queued right after the session accepted the frame that
      carries it, and that frame was just taken from the link, or is what the
      segments taken since the last field or refusal join to. */
  lemma NothingIsLostOrRepeated(o: ChannelOptions, wire: Wire, sleeps: seq<TransportStatus>, calls: seq<Call>)
    ensures var run := Run(o, Initial(o, wire, sleeps), calls);
            var l := Account(run.chan.log);
            && l.decoded == l.gone + run.chan.pendingFrames
            && l.queued == l.left + run.chan.pendingApdus
            && l.returned == AllReturned(run.outcomes)
            && run.chan.wire.writes == wire.writes + l.sent
            && Dry(run.chan.decoder)
            && l.ordered
            && (if o.hdlcUseSession then l.vouched else l.queued == ApdusIn(o, l.taken))
  {
    hide Run, Account, Dry, Gathering, Faithful;
    var c := Initial(o, wire, sleeps);
    InitiallyBalanced(o, wire, sleeps);
    RunBalances(o, c, calls, Base(wire.writes, [], o.hdlcUseSession));
    assert [] + AllReturned(Run(o, c, calls).outcomes) == AllReturned(Run(o, c, calls).outcomes);
    if !o.hdlcUseSession {
      FaithfulMeans(o, Run(o, c, calls).chan);
    }
  }

  lemma InitiallyBalanced(o: ChannelOptions, wire: Wire, sleeps: seq<TransportStatus>)
    ensures var c := Initial(o, wire, sleeps);
            BooksBalance(c, Base(wire.writes, [], o.hdlcUseSession)) && Faithful(o, c)
  {
    FeedLeavesDry(Initial(o, wire, sleeps).decoder, []);
    assert wire.writes + [] == wire.writes;
  }

  lemma FaithfulMeans(o: ChannelOptions, c: Chan)
    requires Faithful(o, c) && !o.hdlcUseSession
    ensures Account(c.log).queued == ApdusIn(o, Account(c.log).taken)
  {}

  lemma {:induction false} OrderedThroughout(log: seq<Event>, i: nat)
    requires i < |log| && log[i].Decoded? && Account(log).ordered
    ensures Account(log[..i]).decoded == Account(log[..i]).gone
    decreases |log|
  {
    var shorter := log[..|log| - 1];
    if i < |shorter| {
      assert shorter[..i] == log[..i];
      OrderedThroughout(shorter, i);
    }
  }

  /** Over every run, the stream is decoded only when every frame decoded before
      has been handed over or thrown away, whichever consumer asks. */
  lemma QueueDrainsBeforeTheStream(o: ChannelOptions, wire: Wire, sleeps: seq<TransportStatus>,
                                   calls: seq<Call>, i: nat)
    ensures var log := Run(o, Initial(o, wire, sleeps), calls).chan.log;
            i < |log| && log[i].Decoded? ==> Account(log[..i]).decoded == Account(log[..i]).gone
  {
    hide Run, Account;
    NothingIsLostOrRepeated(o, wire, sleeps, calls);
    var log := Run(o, Initial(o, wire, sleeps), calls).chan.log;
    if i < |log| && log[i].Decoded? {
      OrderedThroughout(log, i);
    }
  }
}
