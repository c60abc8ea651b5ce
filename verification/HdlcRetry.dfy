/** The budget of waits and retransmissions. */
module HdlcRetry {
  import opened Basics
  import opened Statuses
  import opened HdlcCodec
  import opened HdlcSession
  import opened ProfileTypes
  import opened Transport
  import opened HdlcChannelSpec

  /** How often a control frame was awaited. */
  function Polls(log: seq<Event>): nat {
    multiset(log)[Polled]
  }

  function Copies(b: bytes, k: nat): seq<bytes> {
    seq(k, i => b)
  }

  lemma {:induction false} PullWritesNothing(c: Chan)
    ensures var d := Pull(c).chan; d.wire.writes == c.wire.writes && Polls(d.log) == Polls(c.log)
    decreases |c.wire.script|
  {
    hide HdlcDecoder.Feed, Wire.ReadSome;
    ReadWritesNothing(c.wire, c.capacity);
    var read := c.wire.ReadSome(c.capacity);
    var pushed := c.decoder.Feed(read.data);
    if read.status == TransportOk && read.data != [] && MapHdlcStatus(VerdictStatus(pushed.verdict)) == NeedMoreData {
      PullWritesNothing(c.(wire := read.wire, decoder := c.decoder.(buffer := pushed.buffer)));
    }
  }

  /** Waiting once polls once and writes nothing. */
  lemma OneWaitPollsOnce(c: Chan)
    ensures var d := ReceiveSessionControlFrame(c).chan;
            d.wire.writes == c.wire.writes && Polls(d.log) == Polls(c.log) + 1
  {
    hide Pull, Session.ReceiveFrame;
    PullWritesNothing(Note(c, Polled));
  }

  lemma OneWriteIsOneCopy(c: Chan, frameBytes: bytes)
    ensures var d := WriteFrameBytes(c, frameBytes).chan;
            d.wire.writes == c.wire.writes + Copies(frameBytes, 1) && Polls(d.log) == Polls(c.log)
  {
    assert Copies(frameBytes, 1) == [frameBytes];
  }

  /** A wait receives at most one time more than it writes, and what it writes
      are at most `hdlcRetryCount - attempt` copies of the frame it was given. */
  lemma {:induction false} WaitStaysInBudget(o: ChannelOptions, c: Chan, frameBytes: bytes, attempt: nat)
    returns (k: nat)
    requires attempt <= o.hdlcRetryCount
    ensures var d := AwaitControlFrame(o, c, frameBytes, attempt).chan;
            && k <= o.hdlcRetryCount - attempt
            && d.wire.writes == c.wire.writes + Copies(frameBytes, k)
            && Polls(c.log) + k <= Polls(d.log) <= Polls(c.log) + k + 1
    decreases o.hdlcRetryCount - attempt
  {
    hide ReceiveSessionControlFrame, WriteFrameBytes, Polls;
    k := 0;
    OneWaitPollsOnce(c);
    var r := ReceiveSessionControlFrame(c);
    if r.status != Ok && IsRetriable(r.status) && attempt < o.hdlcRetryCount {
      var slept := SleepBeforeRetry(o, r.chan);
      OneWriteIsOneCopy(slept.chan, frameBytes);
      var written := WriteFrameBytes(slept.chan, frameBytes);
      if slept.status == Ok {
        k := 1;
        if written.status == Ok {
          var more := WaitStaysInBudget(o, written.chan, frameBytes, attempt + 1);
          assert Copies(frameBytes, 1) + Copies(frameBytes, more) == Copies(frameBytes, 1 + more);
          k := 1 + more;
        }
      }
    }
  }

  lemma FrameStaysInBudget(o: ChannelOptions, c: Chan, frameBytes: bytes) returns (k: nat)
    ensures var d := WriteAndAwait(o, c, frameBytes).chan;
            1 <= k <= o.hdlcRetryCount + 1 && d.wire.writes == c.wire.writes + Copies(frameBytes, k)
  {
    hide AwaitControlFrame, Polls;
    k := 1;
    assert Copies(frameBytes, 1) == [frameBytes];
    var written := WriteFrameBytes(c, frameBytes);
    if written.status == Ok {
      var more := WaitStaysInBudget(o, written.chan, frameBytes, 0);
      assert Copies(frameBytes, 1) + Copies(frameBytes, more) == Copies(frameBytes, 1 + more);
      k := 1 + more;
    }
  }

  /** One chunk costs at most `hdlcRetryCount + 1` writes, all of the same bytes. */
  lemma ChunkStaysInBudget(o: ChannelOptions, c: Chan, information: bytes, final: bool) returns (b: bytes, k: nat)
    ensures var d := SendChunk(o, c, information, final).chan;
            k <= o.hdlcRetryCount + 1 && d.wire.writes == c.wire.writes + Copies(b, k)
  {
    hide ReceiveSessionControlFrame, WriteAndAwait, BuildSessionInformationFrame, Polls;
    b, k := [], 0;
    OneWaitPollsOnce(c);
    assert c.wire.writes + Copies([], 0) == c.wire.writes;
    var ready := if c.session.CanSendInformationFrame() then Reply(Ok, c) else ReceiveSessionControlFrame(c);
    if ready.status == Ok {
      BuildingWritesNothing(ready.chan, information, !final, final);
      var built := BuildSessionInformationFrame(ready.chan, information, !final, final);
      if built.status == Ok {
        b := built.frameBytes;
        k := FrameStaysInBudget(o, built.chan, b);
      }
    }
  }

  lemma BuildingWritesNothing(c: Chan, information: bytes, segmented: bool, pollFinal: bool)
    ensures var r := BuildSessionInformationFrame(c, information, segmented, pollFinal);
            r.chan == c.(session := r.chan.session)
  {}

  lemma OneMoreTimes(n: nat, m: nat)
    ensures (n + 1) * m == m + n * m && n * m >= 0
  {}

  /** A send of `count - i` more chunks performs at most `hdlcRetryCount + 1`
      writes for each of them. */
  lemma {:induction false} SendStaysInBudget(
    o: ChannelOptions, c: Chan, lpdu: bytes, chunk: nat, count: nat, i: nat, offset: nat)
    requires i <= count && offset <= |lpdu|
    ensures var d := SendChunks(o, c, lpdu, chunk, count, i, offset).chan;
            && c.wire.writes <= d.wire.writes
            && |d.wire.writes| <= |c.wire.writes| + (count - i) * (o.hdlcRetryCount + 1)
    decreases count - i
  {
    hide SendChunk;
    if i < count {
      var size := CurrentSize(lpdu, chunk, offset);
      var b, k := ChunkStaysInBudget(o, c, lpdu[offset..offset + size], i + 1 == count);
      var r := SendChunk(o, c, lpdu[offset..offset + size], i + 1 == count);
      OneMoreTimes(count - i - 1, o.hdlcRetryCount + 1);
      if r.status == Ok {
        SendStaysInBudget(o, r.chan, lpdu, chunk, count, i + 1, offset + size);
      }
    }
  }
}
