/** Options and caller-side buffers of the profile channels. */
module ProfileTypes {
  import opened Basics
  import opened HdlcCodec
  import HdlcSession
  import LlcCodec
  import WrapperCodec

  /** The channel options. The last three fields are the defaults of the
      protocol libraries, which this model leaves open. */
  datatype ChannelOptions = ChannelOptions(
    localWrapperPort: Word,
    remoteWrapperPort: Word,
    wrapperTcpTraceSink: bool,
    hdlcClientAddress: byte,
    hdlcLogicalDeviceAddress: Word,
    hdlcPhysicalDeviceAddress: Word,
    hdlcDirection: LlcCodec.Direction,
    hdlcRole: HdlcSession.Role,
    hdlcUseSession: bool,
    hdlcMaxInformationFieldLengthTransmit: Size,
    hdlcMaxInformationFieldLengthReceive: Size,
    hdlcWindowSizeTransmit: byte,
    hdlcWindowSizeReceive: byte,
    hdlcRetryCount: byte,
    hdlcRetryDelayMilliseconds: nat,
    maximumApduSize: Size,
    scratchBufferSize: Size,
    defaultHdlcLimits: CodecLimits,
    defaultNegotiation: HdlcSession.NegotiationLimits,
    defaultWrapperLimits: WrapperCodec.WrapperLimits)

  const DEFAULT_SCRATCH_SIZE: nat := 2048

  function ScratchSize(o: ChannelOptions): nat {
    if o.scratchBufferSize == 0 then DEFAULT_SCRATCH_SIZE else o.scratchBufferSize
  }

  predicate WithinMaximum(o: ChannelOptions, size: nat) {
    o.maximumApduSize == 0 || size <= o.maximumApduSize
  }

  /** A non-owning input view: null with a claimed size, or actual bytes. */
  datatype ByteView = NullView(size: nat) | View(data: bytes) {
    predicate IsValid() {
      View? || size == 0
    }

    function Bytes(): bytes {
      if View? then data else []
    }
  }

  /** Where a caller's written-size pointer points. */
  class SizeCell {
    var value: nat

    constructor ()
      ensures value == 0
    {
      value := 0;
    }
  }

  /** A caller-provided output buffer. */
  datatype MutableBuffer = MutableBuffer(data: array?<byte>, size: nat, writtenSize: SizeCell?) {
    predicate IsValid() {
      writtenSize != null && (data != null || size == 0)
    }

    /** The size a caller claims is really there. */
    predicate Honest() {
      data != null ==> size <= data.Length
    }
  }
}
