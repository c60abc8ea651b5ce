/** The LLC sublayer of IEC 62056-46 clause 5: a 3-byte header before the APDU. */
module LlcCodec {
  import opened Basics
  import opened Statuses

  const HEADER_SIZE: nat := 3
  const DLMS_LSAP: byte := 0xE6
  const RESPONSE_LSAP: byte := 0xE7
  const CONTROL: byte := 0x00

  datatype Direction = ClientToServer | ServerToClient

  datatype LlcResult = Success(value: bytes) | Failure(status: LlcStatus)

  function Header(d: Direction): bytes {
    [DLMS_LSAP, if d == ClientToServer then DLMS_LSAP else RESPONSE_LSAP, CONTROL]
  }

  /** An LPDU is a size-typed buffer, so an APDU that leaves no room for the
      header is refused. */
  function EncodeLpdu(d: Direction, lsdu: bytes): LlcResult {
    if HEADER_SIZE + |lsdu| >= SIZE_MODULUS then Failure(LlcLsduTooLarge) else Success(Header(d) + lsdu)
  }

  function DecodeLpdu(lpdu: bytes): LlcResult {
    if |lpdu| < HEADER_SIZE then Failure(LlcNeedMoreData)
    else if lpdu[0] != DLMS_LSAP then Failure(LlcInvalidDsap)
    else if lpdu[1] != DLMS_LSAP && lpdu[1] != RESPONSE_LSAP then Failure(LlcInvalidSsap)
    else if lpdu[2] != CONTROL then Failure(LlcInvalidControl)
    else Success(lpdu[HEADER_SIZE..])
  }

  lemma DecodeUndoesEncode(d: Direction, lsdu: bytes)
    requires EncodeLpdu(d, lsdu).Success?
    ensures DecodeLpdu(EncodeLpdu(d, lsdu).value) == Success(lsdu)
  {
    assert (Header(d) + lsdu)[HEADER_SIZE..] == lsdu;
  }
}
