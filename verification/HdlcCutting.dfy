/** What receiving does to a channel is decided by the frames it has taken, in
    either mode: how the bytes are cut into reads and which receive forms are used
    only decides how many. */
module HdlcCutting {
  import opened Basics
  import opened Statuses
  import opened HdlcCodec
  import opened HdlcSession
  import opened ProfileTypes
  import opened Transport
  import opened HdlcChannelSpec
  import opened HdlcBooks
  import opened HdlcReceive

  /** What frames can change: the session, the reassembler, the APDUs queued since
      the start, whether returned or not, and what was written. */
  datatype Inbox = Inbox(session: Session, reassembler: Reassembler, queued: seq<bytes>, writes: seq<bytes>)

  /** One frame after another, with no reads and no calls in sight. */
  function Digest(o: ChannelOptions, i: Inbox, f: Frame): Inbox {
    if !o.hdlcUseSession then i.(queued := i.queued + ApduOf(o, f))
    else
      var joined := i.reassembler.PushFrame(f);
      if joined.status == HdlcSegmentationIncomplete then i.(reassembler := joined.reassembler)
      else if joined.status != HdlcOk then i.(reassembler := i.reassembler.Reset())
      else
        var heard := i.session.ReceiveFrame(joined.completed);
        var j := i.(reassembler := joined.reassembler, session := heard.session);
        var apdus := ApduOf(o, joined.completed);
        if heard.status == HdlcOk && joined.hasCompleted && apdus != []
        then j.(queued := i.queued + apdus, writes := i.writes + [FrameBytes(Receipt(i.session))])
        else j
  }

  function DigestAll(o: ChannelOptions, i: Inbox, frames: seq<Frame>): Inbox
    decreases |frames|
  {
    if frames == [] then i else DigestAll(o, Digest(o, i, frames[0]), frames[1..])
  }

  lemma {:induction false} DigestInTwoSteps(o: ChannelOptions, i: Inbox, a: seq<Frame>, b: seq<Frame>)
    ensures DigestAll(o, i, a + b) == DigestAll(o, DigestAll(o, i, a), b)
    decreases |a|
  {
    hide Digest;
    if a == [] {
      assert a + b == b;
    } else {
      assert (a + b)[1..] == a[1..] + b;
      DigestInTwoSteps(o, Digest(o, i, a[0]), a[1..], b);
    }
  }

  /** `gone` are the APDUs returned before. */
  function InboxOf(c: Chan, gone: seq<bytes>): Inbox {
    Inbox(c.session, c.reassembler, gone + c.pendingApdus, c.wire.writes)
  }

  /** A clean line on which writes succeed. */
  predicate Receptive(c: Chan) {
    CleanLine(c) && c.wire.open && c.wire.writeResults == []
  }

  /** `d` is `c` after the next `k` frames of the line. */
  predicate Digested(o: ChannelOptions, c: Chan, gone: seq<bytes>, d: Chan, left: seq<bytes>, k: nat) {
    && Receptive(d) && k <= |Upcoming(c)| && Upcoming(d) == Upcoming(c)[k..]
    && InboxOf(d, left) == DigestAll(o, InboxOf(c, gone), Upcoming(c)[..k])
  }

  lemma QueueingDigests(o: ChannelOptions, c: Chan, f: Frame)
    ensures var r := DecodeCompleteInformation(o, c, f);
            && r.chan == c.(pendingApdus := c.pendingApdus + ApduOf(o, f.(segmented := false)), log := r.chan.log)
            && (r.status == Ok <==> ApduOf(o, f.(segmented := false)) != [])
  {
    assert c.pendingApdus + [] == c.pendingApdus;
  }

  lemma ReceiptIsWritten(c: Chan, before: Session)
    requires c.wire.open && c.wire.writeResults == [] && c.session.state == Connected
    requires c.session.options == before.options && c.session.vr == Increment(before.vr)
    ensures var d := SendSessionReceiveReady(c, true).chan;
            && d == c.(wire := d.wire, log := d.log)
            && d.wire == c.wire.(outbound := d.wire.outbound, writes := c.wire.writes + [FrameBytes(Receipt(before))])
  {
    hide FrameBytes;
  }

  /** A field the session accepts is an I-frame on an open link, not a segment. */
  lemma AcceptedField(s: Session, r: Reassembler, f: Frame)
    ensures var joined := r.PushFrame(f);
            var heard := s.ReceiveFrame(joined.completed);
            joined.status == HdlcOk && joined.hasCompleted ==>
              && !joined.completed.segmented
              && (heard.status == HdlcOk ==>
                    && heard.session.state == Connected && heard.session.options == s.options
                    && heard.session.vr == Increment(s.vr))
    ensures var joined := r.PushFrame(f);
            && joined.status != HdlcNeedMoreData && joined.reassembler.maximumSize == r.maximumSize
            && (joined.status == HdlcOk && !joined.hasCompleted ==> !joined.completed.control.Information?)
  {}

  /** Queueing an accepted field and answering it. */
  function Answered(o: ChannelOptions, c: Chan, field: Frame): Chan {
    var decoded := DecodeCompleteInformation(o, c, field);
    if decoded.status != Ok then decoded.chan else SendSessionReceiveReady(decoded.chan, true).chan
  }

  lemma FieldDigests(o: ChannelOptions, c: Chan, before: Session, field: Frame, gone: seq<bytes>)
    requires c.wire.open && c.wire.writeResults == [] && c.session.state == Connected && !field.segmented
    requires c.session.options == before.options && c.session.vr == Increment(before.vr)
    ensures var d := Answered(o, c, field);
            var apdus := ApduOf(o, field);
            && InboxOf(d, gone) == InboxOf(c, gone).(
                 queued := gone + c.pendingApdus + apdus,
                 writes := if apdus == [] then c.wire.writes else c.wire.writes + [FrameBytes(Receipt(before))])
            && d.wire.open && d.wire.writeResults == [] && d.wire.line == c.wire.line && d.wire.peer == c.wire.peer
            && d.decoder == c.decoder && d.pendingFrames == c.pendingFrames
  {
    hide DecodeCompleteInformation, SendSessionReceiveReady, ApduOf, FrameBytes;
    assert field.(segmented := false) == field;
    QueueingDigests(o, c, field);
    var decoded := DecodeCompleteInformation(o, c, field);
    if decoded.status == Ok {
      ReceiptIsWritten(decoded.chan, before);
    }
    assert gone + (c.pendingApdus + ApduOf(o, field)) == (gone + c.pendingApdus) + ApduOf(o, field);
  }

  lemma DecodingDigests(o: ChannelOptions, c: Chan, f: Frame, gone: seq<bytes>)
    requires c.wire.open && c.wire.writeResults == []
    ensures var d := DecodeFrameToPendingApdu(o, c, f).chan;
            && InboxOf(d, gone) == Digest(o, InboxOf(c, gone), f)
            && d.wire.open && d.wire.writeResults == []
            && d.wire.line == c.wire.line && d.wire.peer == c.wire.peer
            && d.decoder == c.decoder && d.pendingFrames == c.pendingFrames
  {
    hide Session.ReceiveFrame, DecodeCompleteInformation, SendSessionReceiveReady, ApduOf, Reassembler.PushFrame;
    hide FrameBytes;
    assert c.pendingApdus + [] == c.pendingApdus && (gone + c.pendingApdus) + [] == gone + c.pendingApdus;
    if !o.hdlcUseSession {
      SegmentsCarryNothing(o, f);
      QueueingDigests(o, c, f);
      assert gone + (c.pendingApdus + ApduOf(o, f)) == (gone + c.pendingApdus) + ApduOf(o, f);
    } else {
      AcceptedField(c.session, c.reassembler, f);
      RefusedOrTaken(c.session, c.reassembler.PushFrame(f).completed);
      var joined := c.reassembler.PushFrame(f);
      if joined.status == HdlcOk {
        var heard := Hear(Note(c, Assembled(f, joined.status)).(reassembler := joined.reassembler), joined.completed);
        if heard.status == Ok && joined.hasCompleted {
          EmptyCarriesNothing(o, joined.completed);
          FieldDigests(o, heard.chan, c.session, joined.completed, gone);
        }
      }
    }
  }

  lemma RefusedOrTaken(s: Session, f: Frame)
    ensures var status := s.ReceiveFrame(f).status; MapHdlcStatus(status) == Ok <==> status == HdlcOk
  {}

  lemma EmptyCarriesNothing(o: ChannelOptions, f: Frame)
    ensures f.information == [] ==> ApduOf(o, f) == []
  {}

  lemma NothingDigested(o: ChannelOptions, c: Chan, gone: seq<bytes>, d: Chan)
    requires Receptive(d) && Upcoming(d) == Upcoming(c) && InboxOf(d, gone) == InboxOf(c, gone)
    ensures Digested(o, c, gone, d, gone, 0)
  {
    hide Upcoming, InboxOf, Receptive;
    assert Upcoming(c)[..0] == [] && Upcoming(c)[0..] == Upcoming(c);
  }

  /** After one frame, and then `k` more. */
  lemma OneMoreDigested(o: ChannelOptions, c: Chan, c1: Chan, gone: seq<bytes>, d: Chan, left: seq<bytes>, k: nat)
    requires Upcoming(c) != [] && Upcoming(c1) == Upcoming(c)[1..]
    requires InboxOf(c1, gone) == Digest(o, InboxOf(c, gone), Upcoming(c)[0])
    requires Digested(o, c1, gone, d, left, k)
    ensures Digested(o, c, gone, d, left, k + 1)
  {
    hide Upcoming, InboxOf, Receptive, Digest;
    assert Upcoming(c)[..k + 1][1..] == Upcoming(c1)[..k];
    assert Upcoming(c)[k + 1..] == Upcoming(c1)[k..];
  }

  lemma FrameIsTaken(o: ChannelOptions, c: Chan, gone: seq<bytes>)
    requires Receptive(c)
    ensures var r := ReceiveDecodedFrame(c);
            if r.status == Ok then
              var d := DecodeFrameToPendingApdu(o, r.chan, r.frame.value).chan;
              && Upcoming(c) != [] && Receptive(d) && Upcoming(d) == Upcoming(c)[1..]
              && InboxOf(d, gone) == Digest(o, InboxOf(c, gone), Upcoming(c)[0])
            else Receptive(r.chan) && Upcoming(r.chan) == Upcoming(c) && InboxOf(r.chan, gone) == InboxOf(c, gone)
  {
    hide ReceiveDecodedFrame, DecodeFrameToPendingApdu, Digest, Decode, Dry;
    FramesComeInOrder(c);
    var r := ReceiveDecodedFrame(c);
    if r.status == Ok {
      DecodingDigests(o, r.chan, r.frame.value, gone);
      assert InboxOf(r.chan, gone) == InboxOf(c, gone);
    } else {
      assert [] + Upcoming(r.chan) == Upcoming(r.chan);
    }
  }

  lemma {:induction false} NextApduDigests(o: ChannelOptions, c: Chan, gone: seq<bytes>) returns (k: nat)
    requires Receptive(c)
    ensures Digested(o, c, gone, ReceiveNextApdu(o, c).chan, gone, k)
    decreases |c.wire.script|, |c.pendingFrames|
  {
    hide ReceiveDecodedFrame, DecodeFrameToPendingApdu, Digest, Digested, Upcoming, InboxOf, Receptive;
    FrameIsTaken(o, c, gone);
    var received := ReceiveDecodedFrame(c);
    if received.status != Ok {
      NothingDigested(o, c, gone, received.chan);
      k := 0;
    } else {
      var r := DecodeFrameToPendingApdu(o, received.chan, received.frame.value);
      if r.status == NeedMoreData || (r.status == Ok && r.chan.pendingApdus == []) {
        k := NextApduDigests(o, r.chan, gone);
      } else {
        NothingDigested(o, r.chan, gone, r.chan);
        k := 0;
      }
      OneMoreDigested(o, c, r.chan, gone, ReceiveNextApdu(o, c).chan, gone, k);
      k := k + 1;
    }
  }

  lemma HandingOver(o: ChannelOptions, c: Chan, gone: seq<bytes>, d: Chan, k: nat)
    requires Digested(o, c, gone, d, gone, k) && d.pendingApdus != []
    ensures Digested(o, c, gone, TakeApdu(d), gone + [d.pendingApdus[0]], k)
  {
    hide Decode, Dry;
    assert d.pendingApdus == [d.pendingApdus[0]] + d.pendingApdus[1..];
  }

  predicate Receiving(call: Call) {
    call.CallReceive? || call.CallReceiveInto?
  }

  lemma CallDigests(o: ChannelOptions, c: Chan, gone: seq<bytes>, call: Call) returns (k: nat)
    requires Receptive(c) && Receiving(call)
    ensures var step := Apply(o, c, call); Digested(o, c, gone, step.chan, gone + step.outcome.returned, k)
  {
    hide ReceiveNextApdu, Digested, Upcoming, InboxOf, Receptive;
    assert gone + [] == gone;
    NothingDigested(o, c, gone, c);
    k := 0;
    if c.pendingApdus == [] && !(call.CallReceiveInto? && !call.valid) {
      k := NextApduDigests(o, c, gone);
    }
    var d := Await(o, c).chan;
    if d.pendingApdus != [] && !(call.CallReceiveInto? && !call.valid) {
      HandingOver(o, c, gone, d, k);
    }
  }

  lemma DigestedTwice(o: ChannelOptions, c: Chan, gone: seq<bytes>, d: Chan, left: seq<bytes>, k: nat,
                      e: Chan, last: seq<bytes>, m: nat)
    requires Digested(o, c, gone, d, left, k) && Digested(o, d, left, e, last, m)
    ensures Digested(o, c, gone, e, last, k + m)
  {
    hide Upcoming, InboxOf, Receptive;
    var all := Upcoming(c);
    assert all[..k + m] == all[..k] + all[k..][..m] && all[k + m..] == all[k..][m..];
    DigestInTwoSteps(o, InboxOf(c, gone), all[..k], all[k..][..m]);
  }

  /** Receiving is a fold. In either mode, on any clean line whose writes succeed,
      however it is cut and whatever reads fail: after any run of receives of
      either form, session, reassembler, receipts and the APDUs returned or
      pending are what the first `k` frames of the line make of them, refused
      segments, supervisory frames and disconnects included. */
  lemma {:induction false} ReceivingIsAFold(o: ChannelOptions, c: Chan, gone: seq<bytes>, calls: seq<Call>)
    returns (k: nat)
    requires Receptive(c) && forall i :: 0 <= i < |calls| ==> Receiving(calls[i])
    ensures var run := Run(o, c, calls); Digested(o, c, gone, run.chan, gone + AllReturned(run.outcomes), k)
    decreases |calls|
  {
    hide Apply, Digested, Receptive, Upcoming, InboxOf;
    if calls == [] {
      assert gone + [] == gone;
      NothingDigested(o, c, gone, c);
      k := 0;
    } else {
      var step := Apply(o, c, calls[0]);
      k := CallDigests(o, c, gone, calls[0]);
      var left := gone + step.outcome.returned;
      StaysReceptive(o, c, gone, step.chan, left, k);
      var m := ReceivingIsAFold(o, step.chan, left, calls[1..]);
      var rest := Run(o, step.chan, calls[1..]);
      assert left + AllReturned(rest.outcomes) == gone + (step.outcome.returned + AllReturned(rest.outcomes));
      DigestedTwice(o, c, gone, step.chan, left, k, rest.chan, left + AllReturned(rest.outcomes), m);
      k := k + m;
    }
  }

  lemma StaysReceptive(o: ChannelOptions, c: Chan, gone: seq<bytes>, d: Chan, left: seq<bytes>, k: nat)
    requires Digested(o, c, gone, d, left, k)
    ensures Receptive(d)
  {}

  /** `j` with `more` is what `i` with `ahead` becomes after some more frames. */
  ghost predicate Becomes(o: ChannelOptions, i: Inbox, ahead: seq<Frame>, j: Inbox, more: seq<Frame>) {
    exists taken :: ahead == taken + more && j == DigestAll(o, i, taken)
  }

  lemma LongerPrefix(o: ChannelOptions, i: Inbox, all: seq<Frame>, k: nat, m: nat)
    requires k <= m <= |all|
    ensures Becomes(o, DigestAll(o, i, all[..k]), all[k..], DigestAll(o, i, all[..m]), all[m..])
  {
    hide Digest;
    assert all[..m] == all[..k] + all[k..m] && all[k..] == all[k..m] + all[m..];
    DigestInTwoSteps(o, i, all[..k], all[k..m]);
  }

  /** Cutting does not matter, in either mode. Two channels with the same frames
      ahead and the same inbox: once both have taken everything, they have the same
      session, reassembler and receipts, and the same APDUs returned and pending;
      before that, one is what the other becomes with some more frames. */
  lemma CuttingDoesNotMatter(o: ChannelOptions, a: Chan, b: Chan, calls1: seq<Call>, calls2: seq<Call>)
    requires Receptive(a) && Receptive(b) && Upcoming(a) == Upcoming(b) && InboxOf(a, []) == InboxOf(b, [])
    requires forall i :: 0 <= i < |calls1| ==> Receiving(calls1[i])
    requires forall i :: 0 <= i < |calls2| ==> Receiving(calls2[i])
    ensures var x, y := Run(o, a, calls1), Run(o, b, calls2);
            var i, j := InboxOf(x.chan, AllReturned(x.outcomes)), InboxOf(y.chan, AllReturned(y.outcomes));
            && (Upcoming(x.chan) == [] && Upcoming(y.chan) == [] ==> i == j)
            && (Becomes(o, i, Upcoming(x.chan), j, Upcoming(y.chan))
                || Becomes(o, j, Upcoming(y.chan), i, Upcoming(x.chan)))
  {
    hide Run, Upcoming, Receptive, InboxOf, Becomes, DigestAll;
    var k := ReceivingIsAFold(o, a, [], calls1);
    var m := ReceivingIsAFold(o, b, [], calls2);
    var x, y := Run(o, a, calls1), Run(o, b, calls2);
    assert [] + AllReturned(x.outcomes) == AllReturned(x.outcomes);
    assert [] + AllReturned(y.outcomes) == AllReturned(y.outcomes);
    var all := Upcoming(a);
    LongerPrefix(o, InboxOf(a, []), all, Min(k, m), if k <= m then m else k);
    assert all[k..] == [] && all[m..] == [] ==> k == m;
  }
}
