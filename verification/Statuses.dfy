/** The status enumerations of the profile layer and of the layers below it. */
module Statuses {

  datatype ProfileStatus =
    | Ok | NeedMoreData | OutputBufferTooSmall | InvalidArgument | NotOpen
    | AlreadyOpen | OpenFailed | ReadFailed | WriteFailed | Timeout
    | ConnectionClosed | WouldBlock | InvalidFrame | InvalidLength
    | InvalidAddress | PayloadTooLarge | UnsupportedFeature | InternalError

  datatype TransportStatus =
    | TransportOk | TransportInvalidArgument | TransportNotOpen
    | TransportAlreadyOpen | TransportOpenFailed | TransportReadFailed
    | TransportWriteFailed | TransportTimeout | TransportConnectionClosed
    | TransportWouldBlock | TransportOutputBufferTooSmall
    | TransportUnsupportedFeature | TransportInternalError

  datatype WrapperStatus =
    | WrapperOk | WrapperNeedMoreData | WrapperInvalidVersion
    | WrapperDataTooLarge | WrapperFrameTooLarge

  datatype LlcStatus =
    | LlcOk | LlcNeedMoreData | LlcInvalidDsap | LlcInvalidSsap
    | LlcInvalidControl | LlcLsduTooLarge

  datatype HdlcStatus =
    | HdlcOk | HdlcNeedMoreData | HdlcSegmentationIncomplete
    | HdlcInvalidArgument | HdlcInvalidFlag | HdlcInvalidFrameFormat
    | HdlcInvalidFrameType | HdlcInvalidControlField | HdlcSegmentationError
    | HdlcInvalidFrameLength | HdlcInvalidAddress | HdlcFrameTooLarge
    | HdlcInformationFieldTooLarge | HdlcSegmentationOverflow

  function MapTransportStatus(status: TransportStatus): ProfileStatus {
    match status
    case TransportOk => Ok
    case TransportInvalidArgument => InvalidArgument
    case TransportNotOpen => NotOpen
    case TransportAlreadyOpen => AlreadyOpen
    case TransportOpenFailed => OpenFailed
    case TransportReadFailed => ReadFailed
    case TransportWriteFailed => WriteFailed
    case TransportTimeout => Timeout
    case TransportConnectionClosed => ConnectionClosed
    case TransportWouldBlock => WouldBlock
    case TransportOutputBufferTooSmall => OutputBufferTooSmall
    case TransportUnsupportedFeature => UnsupportedFeature
    case TransportInternalError => InternalError
  }

  function MapWrapperStatus(status: WrapperStatus): ProfileStatus {
    match status
    case WrapperOk => Ok
    case WrapperNeedMoreData => NeedMoreData
    case WrapperInvalidVersion => InvalidFrame
    case WrapperDataTooLarge => PayloadTooLarge
    case WrapperFrameTooLarge => PayloadTooLarge
  }

  function MapLlcStatus(status: LlcStatus): ProfileStatus {
    match status
    case LlcOk => Ok
    case LlcNeedMoreData => NeedMoreData
    case LlcInvalidDsap => InvalidFrame
    case LlcInvalidSsap => InvalidFrame
    case LlcInvalidControl => InvalidFrame
    case LlcLsduTooLarge => PayloadTooLarge
  }

  function MapHdlcStatus(status: HdlcStatus): ProfileStatus {
    match status
    case HdlcOk => Ok
    case HdlcNeedMoreData => NeedMoreData
    case HdlcSegmentationIncomplete => NeedMoreData
    case HdlcInvalidArgument => InvalidArgument
    case HdlcInvalidFlag => InvalidFrame
    case HdlcInvalidFrameFormat => InvalidFrame
    case HdlcInvalidFrameType => InvalidFrame
    case HdlcInvalidControlField => InvalidFrame
    case HdlcSegmentationError => InvalidFrame
    case HdlcInvalidFrameLength => InvalidLength
    case HdlcInvalidAddress => InvalidAddress
    case HdlcFrameTooLarge => PayloadTooLarge
    case HdlcInformationFieldTooLarge => PayloadTooLarge
    case HdlcSegmentationOverflow => PayloadTooLarge
  }

  /** The receive statuses after which a pending frame is written again. */
  predicate IsRetriable(status: ProfileStatus) {
    status == WouldBlock || status == Timeout || status == NeedMoreData
  }

  /** Which statuses of the layers below a caller can tell apart, and which not. */
  lemma StatusesComeFrom(t: TransportStatus, w: WrapperStatus, l: LlcStatus, h: HdlcStatus)
    ensures MapTransportStatus(t) == Ok <==> t == TransportOk
    ensures MapTransportStatus(t) == InvalidArgument <==> t == TransportInvalidArgument
    ensures MapTransportStatus(t) == NotOpen <==> t == TransportNotOpen
    ensures MapTransportStatus(t) == AlreadyOpen <==> t == TransportAlreadyOpen
    ensures MapTransportStatus(t) == OpenFailed <==> t == TransportOpenFailed
    ensures MapTransportStatus(t) == ReadFailed <==> t == TransportReadFailed
    ensures MapTransportStatus(t) == WriteFailed <==> t == TransportWriteFailed
    ensures MapTransportStatus(t) == Timeout <==> t == TransportTimeout
    ensures MapTransportStatus(t) == ConnectionClosed <==> t == TransportConnectionClosed
    ensures MapTransportStatus(t) == WouldBlock <==> t == TransportWouldBlock
    ensures MapTransportStatus(t) == OutputBufferTooSmall <==> t == TransportOutputBufferTooSmall
    ensures MapTransportStatus(t) == UnsupportedFeature <==> t == TransportUnsupportedFeature
    ensures MapTransportStatus(t) == InternalError <==> t == TransportInternalError
    ensures MapWrapperStatus(w) == Ok <==> w == WrapperOk
    ensures MapWrapperStatus(w) == NeedMoreData <==> w == WrapperNeedMoreData
    ensures MapWrapperStatus(w) == InvalidFrame <==> w == WrapperInvalidVersion
    ensures MapWrapperStatus(w) == PayloadTooLarge <==> w in {WrapperDataTooLarge, WrapperFrameTooLarge}
    ensures MapLlcStatus(l) == Ok <==> l == LlcOk
    ensures MapLlcStatus(l) == NeedMoreData <==> l == LlcNeedMoreData
    ensures MapLlcStatus(l) == InvalidFrame <==> l in {LlcInvalidDsap, LlcInvalidSsap, LlcInvalidControl}
    ensures MapLlcStatus(l) == PayloadTooLarge <==> l == LlcLsduTooLarge
    ensures MapHdlcStatus(h) == Ok <==> h == HdlcOk
    ensures MapHdlcStatus(h) == NeedMoreData <==> h in {HdlcNeedMoreData, HdlcSegmentationIncomplete}
    ensures MapHdlcStatus(h) == InvalidArgument <==> h == HdlcInvalidArgument
    ensures MapHdlcStatus(h) == InvalidFrame <==>
              h in {HdlcInvalidFlag, HdlcInvalidFrameFormat, HdlcInvalidFrameType, HdlcInvalidControlField,
                    HdlcSegmentationError}
    ensures MapHdlcStatus(h) == InvalidLength <==> h == HdlcInvalidFrameLength
    ensures MapHdlcStatus(h) == InvalidAddress <==> h == HdlcInvalidAddress
    ensures MapHdlcStatus(h) == PayloadTooLarge <==>
              h in {HdlcFrameTooLarge, HdlcInformationFieldTooLarge, HdlcSegmentationOverflow}
  {}
}
