/** The WRAPPER data unit of IEC 62056-47: an 8-byte header (version, source
    port, destination port, data length) followed by the data. */
module WrapperCodec {
  import opened Basics
  import opened Statuses
  import opened StreamDecoding

  const HEADER_SIZE: nat := 8
  const VERSION: Word := 1

  datatype WrapperLimits = WrapperLimits(maximumDataSize: nat, maximumFrameSize: nat)

  datatype WrapperFrame = WrapperFrame(source: Word, destination: Word, data: bytes)

  datatype Encoded = Encoded(status: WrapperStatus, wpdu: bytes)

  predicate Sized(f: WrapperFrame) {
    |f.data| < 0x1_0000
  }

  predicate Fits(limits: WrapperLimits, f: WrapperFrame) {
    && Sized(f)
    && |f.data| <= limits.maximumDataSize
    && HEADER_SIZE + |f.data| <= limits.maximumFrameSize
  }

  function WpduBytes(f: WrapperFrame): (b: bytes)
    requires Sized(f)
    ensures |b| == HEADER_SIZE + |f.data|
  {
    WordBytes(VERSION) + WordBytes(f.source) + WordBytes(f.destination) + WordBytes(|f.data|) + f.data
  }

  function EncodeWpdu(limits: WrapperLimits, f: WrapperFrame): Encoded {
    if |f.data| > limits.maximumDataSize || !Sized(f) then Encoded(WrapperDataTooLarge, [])
    else if HEADER_SIZE + |f.data| > limits.maximumFrameSize then Encoded(WrapperFrameTooLarge, [])
    else Encoded(WrapperOk, WpduBytes(f))
  }

  function ParseWpdu(limits: WrapperLimits, b: bytes): Parsed<WrapperFrame, WrapperStatus> {
    if |b| < HEADER_SIZE then Partial
    else if WordAt(b, 0) != VERSION then Bad(WrapperInvalidVersion)
    else
      var size := WordAt(b, 6);
      if size > limits.maximumDataSize then Bad(WrapperDataTooLarge)
      else if HEADER_SIZE + size > limits.maximumFrameSize then Bad(WrapperFrameTooLarge)
      else if |b| < HEADER_SIZE + size then Partial
      else Unit(WrapperFrame(WordAt(b, 2), WordAt(b, 4), b[HEADER_SIZE..HEADER_SIZE + size]), HEADER_SIZE + size)
  }

  function Parser(limits: WrapperLimits): bytes -> Parsed<WrapperFrame, WrapperStatus> {
    (b: bytes) => ParseWpdu(limits, b)
  }

  function Decode(limits: WrapperLimits, b: bytes): Drained<WrapperFrame, WrapperStatus> {
    Drain(Parser(limits), b)
  }

  datatype WrapperDecoder = WrapperDecoder(limits: WrapperLimits, buffer: bytes) {
    function Reset(): WrapperDecoder { this.(buffer := []) }

    function Feed(input: bytes): Pushed<WrapperFrame, WrapperStatus> {
      Push(Parser(limits), buffer, input)
    }
  }

  function VerdictStatus(v: Verdict<WrapperStatus>): WrapperStatus {
    match v
    case Done => WrapperOk
    case NeedMore => WrapperNeedMoreData
    case Failed(e) => e
  }

  lemma ParserIsStable(limits: WrapperLimits)
    ensures Stable(Parser(limits))
  {
    var parse := Parser(limits);
    forall b: bytes, x: bytes ensures StableAt(parse, b, x) {
      assert forall i :: 0 <= i < |b| ==> (b + x)[i] == b[i];
      if |b| >= HEADER_SIZE && |b| >= HEADER_SIZE + WordAt(b, 6) {
        var n := HEADER_SIZE + WordAt(b, 6);
        assert (b + x)[HEADER_SIZE..n] == b[HEADER_SIZE..n];
      }
    }
  }

  /** Without a complete frame the buffer is kept whole. */
  lemma NothingDecodedIsKept(limits: WrapperLimits, b: bytes)
    ensures Decode(limits, b).error.None? && Decode(limits, b).frames == [] ==> Decode(limits, b).rest == b
  {}

  /** Feeding a decoder takes exactly the frames its input completes. */
  lemma FeedConserves(d: WrapperDecoder, input: bytes, later: bytes)
    requires Decode(d.limits, d.buffer + (input + later)).error.None?
    ensures var p := d.Feed(input);
            && !p.verdict.Failed?
            && Decode(d.limits, p.buffer + later).error.None?
            && Decode(d.limits, d.buffer + (input + later)).frames
               == p.frames + Decode(d.limits, p.buffer + later).frames
            && Decode(d.limits, p.buffer) == Drained([], p.buffer, None)
  {
    hide Stable;
    ParserIsStable(d.limits);
    PushConserves(Parser(d.limits), d.buffer, input, later);
  }

  /** The decoder holds neither a complete frame nor a malformed one. */
  predicate Dry(d: WrapperDecoder) {
    Decode(d.limits, d.buffer) == Drained([], d.buffer, None)
  }

  /** What a decoder reports as an error is one. */
  lemma {:induction false} ErrorsAreErrors(limits: WrapperLimits, b: bytes)
    ensures match Decode(limits, b).error
            case None => true
            case Some(e) => MapWrapperStatus(e) != Ok && MapWrapperStatus(e) != NeedMoreData
    decreases |b|
  {
    match ParseWpdu(limits, b)
    case Unit(_, n) => if 0 < n <= |b| { ErrorsAreErrors(limits, b[n..]); }
    case _ =>
  }

  /** After a push that did not fail, and after a reset, a decoder is dry. */
  lemma FeedLeavesDry(d: WrapperDecoder, input: bytes)
    ensures var status := MapWrapperStatus(VerdictStatus(d.Feed(input).verdict));
            status == Ok || status == NeedMoreData ==>
              !d.Feed(input).verdict.Failed? && Dry(d.(buffer := d.Feed(input).buffer))
    ensures Dry(d.Reset())
  {
    ErrorsAreErrors(d.limits, d.buffer + input);
    ParserIsStable(d.limits);
    DrainRestIsDry(Parser(d.limits), d.buffer + input);
  }

  /** Decoding undoes encoding, whatever follows on the stream. */
  lemma ParseUndoesEncode(limits: WrapperLimits, f: WrapperFrame, x: bytes)
    requires Fits(limits, f)
    ensures ParseWpdu(limits, WpduBytes(f) + x) == Unit(f, HEADER_SIZE + |f.data|)
  {
    var b := WpduBytes(f);
    var all := b + x;
    assert all[0] == 0 && all[1] == 1;
    assert all[2] == f.source / 256 && all[3] == f.source % 256;
    assert all[4] == f.destination / 256 && all[5] == f.destination % 256;
    assert all[6] == |f.data| / 256 && all[7] == |f.data| % 256;
    assert all[HEADER_SIZE..HEADER_SIZE + |f.data|] == f.data;
  }

  function WpdusOf(frames: seq<WrapperFrame>): seq<bytes>
    requires forall i :: 0 <= i < |frames| ==> Sized(frames[i])
  {
    seq(|frames|, i requires 0 <= i < |frames| => WpduBytes(frames[i]))
  }

  lemma NothingInNothing(limits: WrapperLimits)
    ensures Decode(limits, []) == Drained([], [], None)
  {}

  /** A stream of encoded frames decodes to exactly those frames. */
  lemma {:induction false} DecodeUndoesEncode(limits: WrapperLimits, frames: seq<WrapperFrame>)
    requires forall i :: 0 <= i < |frames| ==> Sized(frames[i]) && Fits(limits, frames[i])
    ensures Decode(limits, Concat(WpdusOf(frames))) == Drained(frames, [], None)
  {
    hide ParseWpdu, WpduBytes;
    if frames == [] {
      NothingInNothing(limits);
    } else {
      var all := WpdusOf(frames);
      var head, tail := WpduBytes(frames[0]), Concat(WpdusOf(frames[1..]));
      assert all[1..] == WpdusOf(frames[1..]);
      assert Concat(all) == head + tail;
      ParseUndoesEncode(limits, frames[0], tail);
      assert (head + tail)[|head|..] == tail;
      DecodeUndoesEncode(limits, frames[1..]);
      assert frames == [frames[0]] + frames[1..];
    }
  }
}
