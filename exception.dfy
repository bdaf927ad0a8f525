/** Modbus exception codes and their one-byte wire encoding. */
module Exception {
  import opened Num
  import opened Constants

  datatype ExceptionCode =
    | IllegalFunction
    | IllegalDataAddress
    | IllegalDataValue
    | ServerDeviceFailure
    | Acknowledge
    | ServerDeviceBusy
    | MemoryParityError
    | GatewayPathUnavailable
    | GatewayTargetDeviceFailedToRespond
    | Unknown(code: u8)

  /** The bytes that have a named exception code. */
  predicate IsNamedCode(b: int) {
    b in {ILLEGAL_FUNCTION, ILLEGAL_DATA_ADDRESS, ILLEGAL_DATA_VALUE, SERVER_DEVICE_FAILURE,
          ACKNOWLEDGE, SERVER_DEVICE_BUSY, MEMORY_PARITY_ERROR, GATEWAY_PATH_UNAVAILABLE,
          GATEWAY_TARGET_DEVICE_FAILED_TO_RESPOND}
  }

  /** `impl From<u8> for ExceptionCode`: unnamed bytes become `Unknown(byte)`. */
  function FromByte(b: u8): (e: ExceptionCode)
    ensures e.Unknown? <==> !IsNamedCode(b)
    ensures e.Unknown? ==> e.code == b
  {
    if b == ILLEGAL_FUNCTION then IllegalFunction
    else if b == ILLEGAL_DATA_ADDRESS then IllegalDataAddress
    else if b == ILLEGAL_DATA_VALUE then IllegalDataValue
    else if b == SERVER_DEVICE_FAILURE then ServerDeviceFailure
    else if b == ACKNOWLEDGE then Acknowledge
    else if b == SERVER_DEVICE_BUSY then ServerDeviceBusy
    else if b == MEMORY_PARITY_ERROR then MemoryParityError
    else if b == GATEWAY_PATH_UNAVAILABLE then GatewayPathUnavailable
    else if b == GATEWAY_TARGET_DEVICE_FAILED_TO_RESPOND then GatewayTargetDeviceFailedToRespond
    else Unknown(b)
  }

  /** `impl From<ExceptionCode> for u8`: `Unknown(v)` is written back as `v`. */
  function ToByte(e: ExceptionCode): (b: u8)
    ensures !e.Unknown? ==> IsNamedCode(b)
  {
    match e
    case IllegalFunction => ILLEGAL_FUNCTION
    case IllegalDataAddress => ILLEGAL_DATA_ADDRESS
    case IllegalDataValue => ILLEGAL_DATA_VALUE
    case ServerDeviceFailure => SERVER_DEVICE_FAILURE
    case Acknowledge => ACKNOWLEDGE
    case ServerDeviceBusy => SERVER_DEVICE_BUSY
    case MemoryParityError => MEMORY_PARITY_ERROR
    case GatewayPathUnavailable => GATEWAY_PATH_UNAVAILABLE
    case GatewayTargetDeviceFailedToRespond => GATEWAY_TARGET_DEVICE_FAILED_TO_RESPOND
    case Unknown(v) => v
  }

  /** Every byte survives decoding and re-encoding. */
  lemma ToByteFromByte(b: u8)
    ensures ToByte(FromByte(b)) == b
  {
  }

  /**
   * A code survives encoding and decoding exactly when it is a named code, or an
   * `Unknown` whose byte is not one of the named ones.
   */
  lemma FromByteToByte(e: ExceptionCode)
    ensures FromByte(ToByte(e)) == e <==> (e.Unknown? ==> !IsNamedCode(e.code))
  {
  }

  /** Bytes 0, 7, 9 and everything from 0x0C up decode to `Unknown`. */
  lemma UnnamedBytes(b: u8)
    requires b == 0 || b == 7 || b == 9 || b >= 0x0C
    ensures FromByte(b) == Unknown(b)
  {
  }

  /** The nine named codes are written as nine different bytes. */
  lemma NamedCodesDistinct(e1: ExceptionCode, e2: ExceptionCode)
    requires !e1.Unknown? && !e2.Unknown?
    ensures ToByte(e1) == ToByte(e2) <==> e1 == e2
  {
  }
}
