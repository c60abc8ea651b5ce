/** A self-delimiting HDLC frame codec: opening flag, format field with the
    segmentation bit and an 11-bit length, two addresses, control field,
    information field, closing flag. */
module HdlcCodec {
  import opened Basics
  import opened Statuses
  import opened StreamDecoding

  const FLAG: byte := 0x7E
  /** Length of format, addresses and control field. */
  const FIXED_SIZE: nat := 11
  const MAXIMUM_LENGTH: nat := 0x7FF
  const SNRM: byte := 0x93
  const UA: byte := 0x73
  const DISC: byte := 0x53

  datatype CodecLimits = CodecLimits(maximumInformationFieldSize: nat, maximumReassembledInformationSize: nat)

  datatype Address = Address(upper: Word, lower: Word)

  datatype Control =
    | Information(ns: Mod8, nr: Mod8, pollFinal: bool)
    | ReceiveReady(nr: Mod8, pollFinal: bool)
    | SetNormalResponse
    | UnnumberedAck
    | Disconnect

  datatype Frame = Frame(segmented: bool, destination: Address, source: Address, control: Control, information: bytes)

  datatype HdlcResult<+T> = Success(value: T) | Failure(status: HdlcStatus)

  function MakeClientAddress(client: byte): HdlcResult<Address> {
    if client < 0x80 then Success(Address(client, 0)) else Failure(HdlcInvalidAddress)
  }

  function MakeServerAddress(logical: Word, physical: Word): HdlcResult<Address> {
    if logical < 0x4000 && physical < 0x4000 then Success(Address(logical, physical)) else Failure(HdlcInvalidAddress)
  }

  function ControlByte(c: Control): byte {
    match c
    case Information(ns, nr, p) =>
      var receive: int, send: int := nr, ns;
      receive * 32 + (if p then 16 else 0) + send * 2
    case ReceiveReady(nr, p) =>
      var receive: int := nr;
      receive * 32 + (if p then 16 else 0) + 1
    case SetNormalResponse => SNRM
    case UnnumberedAck => UA
    case Disconnect => DISC
  }

  function DecodeControl(b: byte): Option<Control> {
    if b % 2 == 0 then Some(Information((b / 2) % 8, b / 32, (b / 16) % 2 == 1))
    else if b % 16 == 1 then Some(ReceiveReady(b / 32, (b / 16) % 2 == 1))
    else if b == SNRM then Some(SetNormalResponse)
    else if b == UA then Some(UnnumberedAck)
    else if b == DISC then Some(Disconnect)
    else None
  }

  lemma ControlRoundTrip(c: Control)
    ensures DecodeControl(ControlByte(c)) == Some(c)
  {
    var b: int := ControlByte(c);
    match c
    case Information(ns, nr, p) =>
      var receive: int, poll: int, send: int := nr, if p then 1 else 0, ns;
      assert b == 2 * (16 * receive + 8 * poll + send);
      assert b / 2 == 8 * (2 * receive + poll) + send;
      assert b / 16 == 2 * receive + poll;
      assert b / 32 == receive;
    case ReceiveReady(nr, p) =>
      var receive: int, poll: int := nr, if p then 1 else 0;
      assert b == 16 * (2 * receive + poll) + 1;
      assert b / 16 == 2 * receive + poll;
      assert b / 32 == receive;
    case SetNormalResponse =>
    case UnnumberedAck =>
    case Disconnect =>
  }

  function AddressBytes(a: Address): bytes {
    WordBytes(a.upper) + WordBytes(a.lower)
  }

  function AddressAt(b: bytes, i: nat): Address
    requires i + 4 <= |b|
  {
    Address(WordAt(b, i), WordAt(b, i + 2))
  }

  predicate Encodable(f: Frame) {
    FIXED_SIZE + |f.information| <= MAXIMUM_LENGTH
  }

  function FormatBytes(segmented: bool, length: nat): bytes
    requires length <= MAXIMUM_LENGTH
  {
    [0xA0 + (if segmented then 8 else 0) + length / 256, length % 256]
  }

  function FrameBytes(f: Frame): (b: bytes)
    requires Encodable(f)
    ensures |b| == FIXED_SIZE + 2 + |f.information|
  {
    [FLAG] + FormatBytes(f.segmented, FIXED_SIZE + |f.information|)
    + AddressBytes(f.destination) + AddressBytes(f.source)
    + [ControlByte(f.control)] + f.information + [FLAG]
  }

  function EncodeFrame(limits: CodecLimits, f: Frame): HdlcResult<bytes> {
    if |f.information| > limits.maximumInformationFieldSize then Failure(HdlcInformationFieldTooLarge)
    else if !Encodable(f) then Failure(HdlcFrameTooLarge)
    else Success(FrameBytes(f))
  }

  function LengthAt(b: bytes): (n: nat)
    requires 3 <= |b|
    ensures n <= MAXIMUM_LENGTH
  {
    var high: int, low: int := b[1], b[2];
    (high % 8) * 256 + low
  }

  function ParseFrame(limits: CodecLimits, b: bytes): Parsed<Frame, HdlcStatus> {
    if |b| == 0 then Partial
    else if b[0] != FLAG then Skip(1)
    else if |b| < 3 then Partial
    else if b[1] / 16 != 10 then Bad(HdlcInvalidFrameFormat)
    else
      var length := LengthAt(b);
      if length < FIXED_SIZE then Bad(HdlcInvalidFrameLength)
      else if length - FIXED_SIZE > limits.maximumInformationFieldSize then Bad(HdlcInformationFieldTooLarge)
      else if |b| < length + 2 then Partial
      else if b[length + 1] != FLAG then Bad(HdlcInvalidFlag)
      else
        match DecodeControl(b[11])
        case None => Bad(HdlcInvalidControlField)
        case Some(control) =>
          Unit(Frame((b[1] / 8) % 2 == 1, AddressAt(b, 3), AddressAt(b, 7), control, b[12..length + 1]), length + 2)
  }

  function Parser(limits: CodecLimits): bytes -> Parsed<Frame, HdlcStatus> {
    (b: bytes) => ParseFrame(limits, b)
  }

  function Decode(limits: CodecLimits, b: bytes): Drained<Frame, HdlcStatus> {
    Drain(Parser(limits), b)
  }

  /** Decodes a buffer that must hold exactly one frame. */
  function DecodeFrame(limits: CodecLimits, b: bytes): HdlcResult<Frame> {
    match ParseFrame(limits, b)
    case Unit(f, n) => if n == |b| then Success(f) else Failure(HdlcInvalidFrameLength)
    case Skip(_) => Failure(HdlcInvalidFlag)
    case Partial => Failure(HdlcNeedMoreData)
    case Bad(e) => Failure(e)
  }

  datatype HdlcDecoder = HdlcDecoder(limits: CodecLimits, buffer: bytes) {
    function Reset(): HdlcDecoder { this.(buffer := []) }

    function Feed(input: bytes): Pushed<Frame, HdlcStatus> {
      Push(Parser(limits), buffer, input)
    }
  }

  function VerdictStatus(v: Verdict<HdlcStatus>): HdlcStatus {
    match v
    case Done => HdlcOk
    case NeedMore => HdlcNeedMoreData
    case Failed(e) => e
  }

  lemma ParserIsStable(limits: CodecLimits)
    ensures Stable(Parser(limits))
  {
    var parse := Parser(limits);
    forall b: bytes, x: bytes ensures StableAt(parse, b, x) {
      assert forall i :: 0 <= i < |b| ==> (b + x)[i] == b[i];
      if |b| >= 3 && |b| >= LengthAt(b) + 2 && LengthAt(b) >= FIXED_SIZE {
        var n := LengthAt(b) + 1;
        assert (b + x)[12..n] == b[12..n];
      }
    }
  }

  /** Feeding a decoder takes exactly the frames its input completes. */
  lemma FeedConserves(d: HdlcDecoder, input: bytes, later: bytes)
    requires Decode(d.limits, d.buffer + (input + later)).error.None?
    ensures var p := d.Feed(input);
            && !p.verdict.Failed?
            && Decode(d.limits, p.buffer + later).error.None?
            && Decode(d.limits, d.buffer + (input + later)).frames
               == p.frames + Decode(d.limits, p.buffer + later).frames
            && Decode(d.limits, p.buffer) == Drained([], p.buffer, None)
  {
    hide Stable;
    ParserIsStable(d.limits);
    PushConserves(Parser(d.limits), d.buffer, input, later);
  }

  /** The decoder holds neither a complete frame nor a malformed one. */
  predicate Dry(d: HdlcDecoder) {
    Decode(d.limits, d.buffer) == Drained([], d.buffer, None)
  }

  /** What a decoder reports as an error is one. */
  lemma {:induction false} ErrorsAreErrors(limits: CodecLimits, b: bytes)
    ensures match Decode(limits, b).error
            case None => true
            case Some(e) => MapHdlcStatus(e) != Ok && MapHdlcStatus(e) != NeedMoreData
    decreases |b|
  {
    match ParseFrame(limits, b)
    case Unit(_, n) => if 0 < n <= |b| { ErrorsAreErrors(limits, b[n..]); }
    case Skip(n) => if 0 < n <= |b| { ErrorsAreErrors(limits, b[n..]); }
    case Partial =>
    case Bad(_) =>
  }

  /** After a push that did not fail, and after a reset, a decoder is dry. */
  lemma FeedLeavesDry(d: HdlcDecoder, input: bytes)
    ensures var status := MapHdlcStatus(VerdictStatus(d.Feed(input).verdict));
            status == Ok || status == NeedMoreData ==>
              !d.Feed(input).verdict.Failed? && Dry(d.(buffer := d.Feed(input).buffer))
    ensures Dry(d.Reset())
  {
    ErrorsAreErrors(d.limits, d.buffer + input);
    ParserIsStable(d.limits);
    DrainRestIsDry(Parser(d.limits), d.buffer + input);
  }

  /** Decoding undoes encoding, whatever follows on the stream. */
  lemma ParseUndoesEncode(limits: CodecLimits, f: Frame, x: bytes)
    requires Encodable(f) && |f.information| <= limits.maximumInformationFieldSize
    ensures ParseFrame(limits, FrameBytes(f) + x) == Unit(f, |FrameBytes(f)|)
  {
    var all := FrameBytes(f) + x;
    var length := FIXED_SIZE + |f.information|;
    HeaderOfEncoded(f, x, 3);
    assert all[3] == f.destination.upper / 256 && all[4] == f.destination.upper % 256;
    assert all[5] == f.destination.lower / 256 && all[6] == f.destination.lower % 256;
    assert all[7] == f.source.upper / 256 && all[8] == f.source.upper % 256;
    assert all[9] == f.source.lower / 256 && all[10] == f.source.lower % 256;
    assert all[11] == ControlByte(f.control);
    assert all[12..length + 1] == f.information;
    assert all[length + 1] == FLAG;
    ControlRoundTrip(f.control);
  }

  /** The length field of an encoded frame can be read from its first bytes. */
  lemma HeaderOfEncoded(f: Frame, x: bytes, size: nat)
    requires Encodable(f)
    requires 3 <= size <= |FrameBytes(f) + x|
    ensures var head := (FrameBytes(f) + x)[..size];
            && head[0] == FLAG
            && head[1] / 16 == 10
            && (head[1] / 8) % 2 == (if f.segmented then 1 else 0)
            && LengthAt(head) == FIXED_SIZE + |f.information|
            && LengthAt(FrameBytes(f) + x) == FIXED_SIZE + |f.information|
  {
    var all := FrameBytes(f) + x;
    var head := all[..size];
    var length := FIXED_SIZE + |f.information|;
    assert head[1] == all[1] == 0xA0 + (if f.segmented then 8 else 0) + length / 256;
    assert head[2] == all[2] == length % 256;
  }

  /** A frame cut short decodes to nothing yet. */
  lemma PrefixIsPartial(limits: CodecLimits, f: Frame, size: nat)
    requires Encodable(f) && |f.information| <= limits.maximumInformationFieldSize
    requires size < |FrameBytes(f)|
    ensures ParseFrame(limits, FrameBytes(f)[..size]) == Partial
  {
    if size >= 3 {
      assert FrameBytes(f) + [] == FrameBytes(f);
      HeaderOfEncoded(f, [], size);
    } else if size > 0 {
      assert FrameBytes(f)[0] == FLAG;
    }
  }

  /** One encoded frame decodes to itself, if its information field is allowed. */
  lemma DecodeOfEncoded(limits: CodecLimits, f: Frame)
    requires Encodable(f)
    ensures DecodeFrame(limits, FrameBytes(f)) ==
            if |f.information| <= limits.maximumInformationFieldSize then Success(f)
            else Failure(HdlcInformationFieldTooLarge)
  {
    var b := FrameBytes(f);
    assert b + [] == b;
    if |f.information| <= limits.maximumInformationFieldSize {
      ParseUndoesEncode(limits, f, []);
    } else {
      HeaderOfEncoded(f, [], |b|);
      assert b[..|b|] == b;
    }
  }

  function FramesBytes(frames: seq<Frame>): seq<bytes>
    requires forall i :: 0 <= i < |frames| ==> Encodable(frames[i])
  {
    seq(|frames|, i requires 0 <= i < |frames| => FrameBytes(frames[i]))
  }

  lemma NothingInNothing(limits: CodecLimits)
    ensures Decode(limits, []) == Drained([], [], None)
  {}

  /** A stream of encoded frames decodes to exactly those frames. */
  lemma {:induction false} DecodeUndoesEncode(limits: CodecLimits, frames: seq<Frame>)
    requires forall i :: 0 <= i < |frames| ==>
               Encodable(frames[i]) && |frames[i].information| <= limits.maximumInformationFieldSize
    ensures Decode(limits, Concat(FramesBytes(frames))) == Drained(frames, [], None)
  {
    hide ParseFrame, FrameBytes;
    if frames == [] {
      NothingInNothing(limits);
    } else {
      var all := FramesBytes(frames);
      var head, tail := FrameBytes(frames[0]), Concat(FramesBytes(frames[1..]));
      assert all[1..] == FramesBytes(frames[1..]);
      assert Concat(all) == head + tail;
      ParseUndoesEncode(limits, frames[0], tail);
      assert (head + tail)[|head|..] == tail;
      DecodeUndoesEncode(limits, frames[1..]);
      assert frames == [frames[0]] + frames[1..];
    }
  }

  /** No noise between the frames of a stream. */
  predicate NoNoise(limits: CodecLimits, b: bytes) {
    Gapless(Parser(limits), b)
  }

  lemma NoNoiseInNothing(limits: CodecLimits)
    ensures NoNoise(limits, [])
  {}

  lemma {:induction false} FramesAreNoNoise(limits: CodecLimits, frames: seq<Frame>)
    requires forall i :: 0 <= i < |frames| ==>
               Encodable(frames[i]) && |frames[i].information| <= limits.maximumInformationFieldSize
    ensures NoNoise(limits, Concat(FramesBytes(frames)))
  {
    hide ParseFrame, FrameBytes;
    if frames == [] {
      NoNoiseInNothing(limits);
    } else {
      var all := FramesBytes(frames);
      var head, tail := FrameBytes(frames[0]), Concat(FramesBytes(frames[1..]));
      assert all[1..] == FramesBytes(frames[1..]);
      assert Concat(all) == head + tail;
      ParseUndoesEncode(limits, frames[0], tail);
      assert (head + tail)[|head|..] == tail;
      FramesAreNoNoise(limits, frames[1..]);
    }
  }

  lemma FeedWithoutNoise(d: HdlcDecoder, input: bytes, later: bytes)
    requires NoNoise(d.limits, d.buffer + (input + later)) && input != []
    ensures var p := d.Feed(input);
            !p.verdict.Failed? ==> NoNoise(d.limits, p.buffer + later) && (p.verdict.Done? ==> p.frames != [])
  {
    hide Stable;
    ParserIsStable(d.limits);
    PushWithoutGaps(Parser(d.limits), d.buffer, input, later);
  }
}
