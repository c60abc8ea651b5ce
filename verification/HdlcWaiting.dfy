/** Exactly when a wait for an acknowledgement succeeds, for every pattern of loss,
    delay, failing reads and cut replies. */
module HdlcWaiting {
  import opened Basics
  import opened Statuses
  import opened HdlcCodec
  import opened HdlcSession
  import opened ProfileTypes
  import opened Transport
  import opened HdlcChannelSpec
  import opened HdlcDelivery
  import opened HdlcProgress
  import opened HdlcRetry

  // ---------------------------------------------------------------------
  // The condition, on the script alone
  // ---------------------------------------------------------------------

  /** What becomes of copies of a frame that has not reached the peer. */
  datatype Reach = NotYet(left: nat) | Answered | ReplyLost

  /** The first fate that is not a loss decides. */
  function Reaching(fates: seq<Fate>, copies: nat): Reach
    decreases |fates|
  {
    if fates == [] || copies == 0 then NotYet(copies)
    else
      match fates[0]
      case Lose => Reaching(fates[1..], copies - 1)
      case Deliver => Answered
      case DeliverButLoseReply => ReplyLost
  }

  /** `need` bytes of the reply are on the line: they are read within `attempts`
      attempts. Reads that take a part belong to one attempt; a read that fails or
      takes nothing ends it. */
  predicate ComesIn(script: seq<ReadStep>, capacity: nat, need: nat, attempts: nat)
    decreases |script|
  {
    && attempts > 0 && script != []
    && match script[0].answer
       case Fail(_) => MayGoOn(script[0].answer) && ComesIn(script[1..], capacity, need, attempts - 1)
       case Take(count) =>
         var n := Min(count, Min(capacity, need));
         if n == 0 then ComesIn(script[1..], capacity, need, attempts - 1)
         else n == need || ComesIn(script[1..], capacity, need - n, attempts)
  }

  /** `copies` of a frame are in transit: within `attempts` attempts, each but the
      last followed by one more copy, one of them is delivered with its reply, and
      the `size` bytes of the reply come in. */
  predicate GetsThrough(script: seq<ReadStep>, capacity: nat, size: nat, copies: nat, attempts: nat)
    decreases |script|
  {
    && attempts > 0 && script != []
    && match Reaching(script[0].arrivals, copies)
       case NotYet(left) =>
         MayGoOn(script[0].answer) && GetsThrough(script[1..], capacity, size, left + 1, attempts - 1)
       case Answered => ComesIn(script, capacity, size, attempts)
       case ReplyLost => false
  }

  // ---------------------------------------------------------------------
  // Arrivals
  // ---------------------------------------------------------------------

  lemma {:induction false} CopiesAreIgnored(w: Wire, fates: seq<Fate>, b: bytes, copies: nat) returns (left: nat)
    requires w.outbound == Copies(b, copies) && Ignored(w.peer, b)
    ensures w.Arrive(fates) == w.(outbound := Copies(b, left))
    decreases |fates|
  {
    hide Respond;
    left := copies;
    if fates != [] && copies > 0 {
      OneCopyLess(b, copies);
      assert w.line + [] == w.line;
      left := CopiesAreIgnored(w.(outbound := w.outbound[1..]), fates[1..], b, copies - 1);
    }
  }

  lemma {:induction false} FirstArrivalDecides(w: Wire, fates: seq<Fate>, b: bytes, copies: nat) returns (left: nat)
    requires w.outbound == Copies(b, copies) && Ignored(Respond(w.peer, b).peer, b)
    ensures var r := Respond(w.peer, b);
            match Reaching(fates, copies)
            case NotYet(n) => w.Arrive(fates) == w.(outbound := Copies(b, n))
            case Answered =>
              w.Arrive(fates) == w.(outbound := Copies(b, left), peer := r.peer, line := w.line + r.reply)
            case ReplyLost => w.Arrive(fates) == w.(outbound := Copies(b, left), peer := r.peer)
    decreases |fates|
  {
    hide Respond, Ignored;
    left := copies;
    if fates != [] && copies > 0 {
      OneCopyLess(b, copies);
      var sent := w.(outbound := w.outbound[1..]);
      var r := Respond(w.peer, b);
      match fates[0]
      case Lose => left := FirstArrivalDecides(sent, fates[1..], b, copies - 1);
      case Deliver =>
        left := CopiesAreIgnored(sent.(peer := r.peer, line := w.line + r.reply), fates[1..], b, copies - 1);
      case DeliverButLoseReply => left := CopiesAreIgnored(sent.(peer := r.peer), fates[1..], b, copies - 1);
    }
  }

  // ---------------------------------------------------------------------
  // The reply is on the line
  // ---------------------------------------------------------------------

  /** Copies travel to a peer that ignores them. */
  predicate Stale(c: Chan, w: Wire, b: bytes, copies: nat) {
    && w == c.wire.(outbound := Copies(b, copies), peer := w.peer, line := w.line, script := w.script)
    && w.open && w.writeResults == [] && Ignored(w.peer, b)
    && c.pendingFrames == [] && c.capacity > 0
  }

  /** The rest of the reply to `b` is on the line. */
  predicate Incoming(c: Chan, b: bytes, copies: nat, answer: Frame) {
    && Stale(c, c.wire, b, copies)
    && answer.information == [] && Inflight(c) == FrameBytes(answer) && c.wire.line != []
  }

  /** What a read finds once the frames in transit have arrived. */
  lemma ReadFinds(before: Wire, capacity: nat, w: Wire)
    requires before.open && before.script != []
    requires w == before.(script := before.script[1..]).Arrive(before.script[0].arrivals)
    ensures before.ReadSome(capacity) ==
            match before.script[0].answer
            case Fail(status) => ReadResult(status, [], w)
            case Take(count) =>
              var n := Min(count, Min(capacity, |w.line|));
              ReadResult(TransportOk, w.line[..n], w.(line := w.line[n..]))
  {
    hide Wire.Arrive;
  }

  lemma ExhaustedPullBlocks(c: Chan)
    requires c.wire.open && c.wire.script == []
    ensures Pull(c) == FrameReply(WouldBlock, None, c)
  {
    hide HdlcDecoder.Feed;
  }

  /** One attempt, once the arrivals of its first read have made the wire `w`. */
  lemma {:induction false} PullComesIn(c: Chan, w: Wire, b: bytes, copies: nat, answer: Frame, attempts: nat)
    returns (left: nat)
    requires c.wire.script != [] && w == c.wire.(script := c.wire.script[1..]).Arrive(c.wire.script[0].arrivals)
    requires Stale(c, w, b, copies) && attempts > 0
    requires answer.information == [] && c.decoder.buffer + w.line == FrameBytes(answer) && w.line != []
    ensures var r := Pull(c);
            && r.chan == c.(decoder := r.chan.decoder, wire := r.chan.wire, log := r.chan.log)
            && (ComesIn(c.wire.script, c.capacity, |w.line|, attempts) <==>
                  r.status == Ok
                  || (IsRetriable(r.status)
                      && ComesIn(r.chan.wire.script, c.capacity, |r.chan.wire.line|, attempts - 1)))
            && (if r.status == Ok then r.frame == Some(answer) else Incoming(r.chan, b, left, answer))
    decreases |c.wire.script|
  {
    hide Respond, Ignored, FrameBytes, HdlcDecoder.Feed, Wire.Arrive, Wire.ReadSome, Copies;
    left := copies;
    ReadFinds(c.wire, c.capacity, w);
    var step := c.wire.script[0];
    ArriveKeepsScript(c.wire.(script := c.wire.script[1..]), step.arrivals);
    if step.answer.Take? && Min(step.answer.count, Min(c.capacity, |w.line|)) > 0 {
      var n := Min(step.answer.count, Min(c.capacity, |w.line|));
      var data := w.line[..n];
      var b1 := c.decoder.buffer + data;
      assert b1 + w.line[n..] == FrameBytes(answer);
      FeedOfOneFrame(c.decoder, data, answer);
      if n < |w.line| {
        assert b1 != FrameBytes(answer);
        var next := c.(decoder := c.decoder.(buffer := b1), wire := w.(line := w.line[n..]));
        if next.wire.script == [] {
          ExhaustedPullBlocks(next);
        } else {
          var begun, fates := next.wire.(script := next.wire.script[1..]), next.wire.script[0].arrivals;
          var m := CopiesAreIgnored(begun, fates, b, copies);
          left := PullComesIn(next, begun.Arrive(fates), b, m, answer, attempts);
        }
      } else {
        assert b1 == FrameBytes(answer);
      }
    }
  }

  /** Whatever the first read finds, an attempt on an exhausted script blocks. */
  lemma NothingMoreToRead(o: ChannelOptions, c: Chan, b: bytes, attempt: nat)
    requires attempt <= o.hdlcRetryCount && c.wire.script == [] && c.pendingFrames == [] && c.wire.open
    ensures AwaitControlFrame(o, c, b, attempt).status != Ok
    decreases o.hdlcRetryCount - attempt
  {
    hide Session.ReceiveFrame, HdlcDecoder.Feed, Wire.WriteAll;
    var r := ReceiveSessionControlFrame(c);
    var slept := SleepBeforeRetry(o, r.chan);
    var written := WriteFrameBytes(slept.chan, b);
    WritingReadsNothing(slept.chan, b);
    if attempt < o.hdlcRetryCount {
      NothingMoreToRead(o, written.chan, b, attempt + 1);
    }
  }

  lemma WritingReadsNothing(c: Chan, b: bytes)
    ensures var d := WriteFrameBytes(c, b).chan;
            && d == c.(wire := d.wire, log := d.log)
            && d.wire == c.wire.(outbound := d.wire.outbound, writes := d.wire.writes,
                                 writeResults := d.wire.writeResults)
  {}

  /** Between two attempts: no failing sleep, and one more copy. */
  lemma OneMoreAttempt(o: ChannelOptions, c: Chan, b: bytes, copies: nat)
    requires c.sleeps == [] && c.wire.open && c.wire.writeResults == [] && c.wire.outbound == Copies(b, copies)
    ensures var slept := SleepBeforeRetry(o, c);
            var written := WriteFrameBytes(slept.chan, b);
            && slept.status == Ok && written.status == Ok
            && written.chan == c.(log := written.chan.log, wire := written.chan.wire)
            && written.chan.wire == c.wire.(outbound := Copies(b, copies + 1), writes := c.wire.writes + [b])
  {
    OneCopyLess(b, copies + 1);
  }

  /** Once the reply is on the line. */
  lemma {:induction false} IncomingWait(o: ChannelOptions, c: Chan, b: bytes, copies: nat, answer: Frame, attempt: nat)
    requires attempt <= o.hdlcRetryCount && Incoming(c, b, copies, answer) && c.sleeps == []
    requires c.session.ReceiveFrame(answer).status == HdlcOk
    ensures AwaitControlFrame(o, c, b, attempt).status == Ok
       <==> ComesIn(c.wire.script, c.capacity, |c.wire.line|, o.hdlcRetryCount - attempt + 1)
    decreases o.hdlcRetryCount - attempt
  {
    if c.wire.script == [] {
      NothingMoreToRead(o, c, b, attempt);
    } else {
      var w := c.wire.(script := c.wire.script[1..]);
      var m := CopiesAreIgnored(w, c.wire.script[0].arrivals, b, copies);
      AfterArrival(o, c, w.Arrive(c.wire.script[0].arrivals), b, m, answer, attempt);
    }
  }

  /** The same, from a wire on which the first arrivals have put the reply. */
  lemma AfterArrival(o: ChannelOptions, c: Chan, w: Wire, b: bytes, copies: nat, answer: Frame, attempt: nat)
    requires attempt <= o.hdlcRetryCount && c.wire.script != [] && c.sleeps == []
    requires w == c.wire.(script := c.wire.script[1..]).Arrive(c.wire.script[0].arrivals) && Stale(c, w, b, copies)
    requires answer.information == [] && c.decoder.buffer + w.line == FrameBytes(answer) && w.line != []
    requires c.session.ReceiveFrame(answer).status == HdlcOk
    ensures AwaitControlFrame(o, c, b, attempt).status == Ok
       <==> ComesIn(c.wire.script, c.capacity, |w.line|, o.hdlcRetryCount - attempt + 1)
    decreases o.hdlcRetryCount - attempt, 0
  {
    hide Pull, Session.ReceiveFrame, SleepBeforeRetry, WriteFrameBytes, ComesIn, Wire.Arrive;
    hide FrameBytes, Ignored, Copies;
    var p := Note(c, Polled);
    var left := PullComesIn(p, w, b, copies, answer, o.hdlcRetryCount - attempt + 1);
    var r := ReceiveSessionControlFrame(c);
    if r.status != Ok && IsRetriable(r.status) {
      if attempt < o.hdlcRetryCount {
        OneMoreAttempt(o, r.chan, b, left);
        var next := WriteFrameBytes(SleepBeforeRetry(o, r.chan).chan, b).chan;
        IncomingWait(o, next, b, left + 1, answer, attempt + 1);
      } else {
        NoAttemptLeft(r.chan);
      }
    }
  }

  lemma NoAttemptLeft(c: Chan)
    ensures !ComesIn(c.wire.script, c.capacity, |c.wire.line|, 0)
  {}

  // ---------------------------------------------------------------------
  // The whole wait
  // ---------------------------------------------------------------------

  /** Once the reply is lost, or whenever nothing is coming and the peer is silent. */
  lemma {:induction false} SilentWait(o: ChannelOptions, c: Chan, b: bytes, copies: nat, attempt: nat)
    requires attempt <= o.hdlcRetryCount && Stale(c, c.wire, b, copies) && c.wire.line == [] && c.sleeps == []
    ensures AwaitControlFrame(o, c, b, attempt).status != Ok
    decreases o.hdlcRetryCount - attempt
  {
    if c.wire.script == [] {
      NothingMoreToRead(o, c, b, attempt);
    } else {
      var w := c.wire.(script := c.wire.script[1..]);
      var m := CopiesAreIgnored(w, c.wire.script[0].arrivals, b, copies);
      AfterSilence(o, c, w.Arrive(c.wire.script[0].arrivals), b, m, attempt);
    }
  }

  lemma AfterSilence(o: ChannelOptions, c: Chan, w: Wire, b: bytes, copies: nat, attempt: nat)
    requires attempt <= o.hdlcRetryCount && c.wire.script != [] && c.sleeps == []
    requires w == c.wire.(script := c.wire.script[1..]).Arrive(c.wire.script[0].arrivals)
    requires Stale(c, w, b, copies) && w.line == []
    ensures AwaitControlFrame(o, c, b, attempt).status != Ok
    decreases o.hdlcRetryCount - attempt, 0
  {
    hide Pull, Session.ReceiveFrame, SleepBeforeRetry, WriteFrameBytes, Wire.Arrive, Ignored, Copies;
    PullOfNothing(Note(c, Polled), w);
    var r := ReceiveSessionControlFrame(c);
    if IsRetriable(r.status) && attempt < o.hdlcRetryCount {
      OneMoreAttempt(o, r.chan, b, copies);
      SilentWait(o, WriteFrameBytes(SleepBeforeRetry(o, r.chan).chan, b).chan, b, copies + 1, attempt + 1);
    }
  }

  /** When a wait succeeds. For every script, whatever it loses, delays, fails and
      cuts: the wait succeeds if and only if one of the copies gets through within
      the retry budget and the reply comes in. */
  lemma {:induction false} WaitSucceedsExactly(
    o: ChannelOptions, c: Chan, b: bytes, answer: Frame, copies: nat, attempt: nat)
    requires attempt <= o.hdlcRetryCount && c.sleeps == [] && c.wire.open && c.wire.writeResults == []
    requires c.wire.outbound == Copies(b, copies) && Inflight(c) == [] && c.pendingFrames == [] && c.capacity > 0
    requires answer.information == [] && Respond(c.wire.peer, b).reply == FrameBytes(answer)
    requires Ignored(Respond(c.wire.peer, b).peer, b) && c.session.ReceiveFrame(answer).status == HdlcOk
    ensures AwaitControlFrame(o, c, b, attempt).status == Ok
       <==> GetsThrough(c.wire.script, c.capacity, EMPTY_FRAME_SIZE, copies, o.hdlcRetryCount - attempt + 1)
    decreases o.hdlcRetryCount - attempt
  {
    hide AwaitControlFrame, Respond, FrameBytes, Wire.Arrive, ComesIn, Ignored;
    var script, budget := c.wire.script, o.hdlcRetryCount - attempt + 1;
    if script == [] {
      NothingMoreToRead(o, c, b, attempt);
    } else {
      var w := c.wire.(script := script[1..]);
      var left := FirstArrivalDecides(w, script[0].arrivals, b, copies);
      var after := w.Arrive(script[0].arrivals);
      var reply := FrameBytes(answer);
      assert c.wire.line + reply == reply && c.decoder.buffer + reply == reply;
      match Reaching(script[0].arrivals, copies)
      case Answered => AfterArrival(o, c, after, b, left, answer, attempt);
      case ReplyLost => AfterSilence(o, c, after, b, left, attempt);
      case NotYet(n) => AfterLoss(o, c, after, b, answer, n, attempt);
    }
  }

  lemma AfterLoss(o: ChannelOptions, c: Chan, w: Wire, b: bytes, answer: Frame, left: nat, attempt: nat)
    requires attempt <= o.hdlcRetryCount && c.sleeps == [] && c.wire.open && c.wire.writeResults == []
    requires c.wire.script != []
    requires w == c.wire.(script := c.wire.script[1..]).Arrive(c.wire.script[0].arrivals)
    requires w == c.wire.(script := c.wire.script[1..], outbound := Copies(b, left))
    requires Inflight(c) == [] && c.pendingFrames == [] && c.capacity > 0
    requires answer.information == [] && Respond(c.wire.peer, b).reply == FrameBytes(answer)
    requires Ignored(Respond(c.wire.peer, b).peer, b) && c.session.ReceiveFrame(answer).status == HdlcOk
    ensures AwaitControlFrame(o, c, b, attempt).status == Ok
       <==> (MayGoOn(c.wire.script[0].answer)
             && GetsThrough(w.script, c.capacity, EMPTY_FRAME_SIZE, left + 1, o.hdlcRetryCount - attempt))
    decreases o.hdlcRetryCount - attempt, 0
  {
    hide Pull, Session.ReceiveFrame, SleepBeforeRetry, WriteFrameBytes, Wire.Arrive;
    hide Respond, Ignored, Copies, FrameBytes;
    PullOfNothing(Note(c, Polled), w);
    var r := ReceiveSessionControlFrame(c);
    if IsRetriable(r.status) && attempt < o.hdlcRetryCount {
      OneMoreAttempt(o, r.chan, b, left);
      WaitSucceedsExactly(o, WriteFrameBytes(SleepBeforeRetry(o, r.chan).chan, b).chan, b, answer,
                          left + 1, attempt + 1);
    }
  }

  /** An idle line under two ends in step. */
  predicate IdleLine(c: Chan) {
    && c.wire.open && c.wire.writeResults == [] && c.wire.outbound == [] && c.sleeps == []
    && Inflight(c) == [] && c.pendingFrames == [] && c.capacity > 0
  }

  /** When a chunk is sent. From two ends in step on an idle line, one chunk that
      fits both is sent and acknowledged if and only if a copy of its frame gets
      through, and its reply comes in, within the retry budget. */
  lemma ChunkSucceedsExactly(o: ChannelOptions, c: Chan, information: bytes, final: bool)
    requires IdleLine(c) && InStep(c.session, c.wire.peer) && FitsBothEnds(c, |information|)
    requires !final ==> |information| <= c.limits.maximumInformationFieldSize
    ensures SendChunk(o, c, information, final).status == Ok
       <==> GetsThrough(c.wire.script, c.capacity, EMPTY_FRAME_SIZE, 1, o.hdlcRetryCount + 1)
  {
    hide FrameBytes, AwaitControlFrame, BuildSessionInformationFrame, Respond, Ignored, GetsThrough;
    ReencodingOnlySetsTheBit(c, information, !final, final);
    var built := BuildSessionInformationFrame(c, information, !final, final);
    var s := c.session;
    OneMoreInStep(s.vs);
    assert built.status == Ok;
    var f := SegmentFrame(s, information, !final, final);
    PeerAnswers(s, c.wire.peer, f);
    var b := FrameBytes(f);
    assert [] + [b] == Copies(b, 1);
    var answer := Frame(false, s.Local(), s.Remote(), ReceiveReady(Increment(s.vs), true), []);
    WaitSucceedsExactly(o, WriteFrameBytes(built.chan, b).chan, b, answer, 1, 0);
  }
}
