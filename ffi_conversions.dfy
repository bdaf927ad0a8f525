/**
 * How the C binding reports the engine's errors and how it turns the point
 * values a foreign caller hands in into the engine's indexed values.
 */
module FfiConversions {
  import opened Num
  import opened Exception
  import Errors
  import opened Types

  /** The flat error enumeration of the C binding. */
  datatype FfiRequestError =
    | BadRequest
    | InternalError
    | NoConnection
    | BadFraming
    | Shutdown
    | ResponseTimeout
    | IoError
    | BadResponse
    | ModbusExceptionAcknowledge
    | ModbusExceptionGatewayPathUnavailable
    | ModbusExceptionGatewayTargetDeviceFailedToRespond
    | ModbusExceptionIllegalDataAddress
    | ModbusExceptionIllegalDataValue
    | ModbusExceptionIllegalFunction
    | ModbusExceptionMemoryParityError
    | ModbusExceptionServerDeviceBusy
    | ModbusExceptionServerDeviceFailure
    | ModbusExceptionUnknown
  {
    /** The values that stand for an exception answered by the device. */
    predicate IsModbusException() {
      !(BadRequest? || InternalError? || NoConnection? || BadFraming? || Shutdown? || ResponseTimeout? || IoError? || BadResponse?)
    }
  }

  /** `From<ExceptionCode> for ffi::RequestError`: each code has its own value; an unknown code loses its byte. */
  function FromExceptionCode(ex: ExceptionCode): (r: FfiRequestError)
    ensures r.IsModbusException()
    ensures r == ModbusExceptionUnknown <==> ex.Unknown?
  {
    match ex
    case Acknowledge => ModbusExceptionAcknowledge
    case GatewayPathUnavailable => ModbusExceptionGatewayPathUnavailable
    case GatewayTargetDeviceFailedToRespond => ModbusExceptionGatewayTargetDeviceFailedToRespond
    case IllegalDataAddress => ModbusExceptionIllegalDataAddress
    case IllegalDataValue => ModbusExceptionIllegalDataValue
    case IllegalFunction => ModbusExceptionIllegalFunction
    case MemoryParityError => ModbusExceptionMemoryParityError
    case ServerDeviceBusy => ModbusExceptionServerDeviceBusy
    case ServerDeviceFailure => ModbusExceptionServerDeviceFailure
    case Unknown(_) => ModbusExceptionUnknown
  }

  /** `From<RequestError> for ffi::RequestError`: an exception delegates to the mapping above; every other kind has a value of its own. */
  function FromRequestError(err: Errors.RequestError): (r: FfiRequestError)
    ensures err.Exception? <==> r.IsModbusException()
    ensures err.Exception? ==> r == FromExceptionCode(err.exception)
  {
    match err
    case Internal(_) => InternalError
    case NoConnection => NoConnection
    case BadFrame(_) => BadFraming
    case Shutdown => Shutdown
    case ResponseTimeout => ResponseTimeout
    case BadRequest(_) => BadRequest
    case Exception(ex) => FromExceptionCode(ex)
    case Io(_) => IoError
    case BadResponse(_) => BadResponse
  }

  /** The way back, for the values that name an exception: the code they came from. */
  function ToExceptionCode(r: FfiRequestError): (ex: ExceptionCode)
    requires r.IsModbusException() && r != ModbusExceptionUnknown
    ensures !ex.Unknown?
  {
    match r
    case ModbusExceptionAcknowledge => Acknowledge
    case ModbusExceptionGatewayPathUnavailable => GatewayPathUnavailable
    case ModbusExceptionGatewayTargetDeviceFailedToRespond => GatewayTargetDeviceFailedToRespond
    case ModbusExceptionIllegalDataAddress => IllegalDataAddress
    case ModbusExceptionIllegalDataValue => IllegalDataValue
    case ModbusExceptionIllegalFunction => IllegalFunction
    case ModbusExceptionMemoryParityError => MemoryParityError
    case ModbusExceptionServerDeviceBusy => ServerDeviceBusy
    case ModbusExceptionServerDeviceFailure => ServerDeviceFailure
  }

  /** The nine named codes survive the mapping: it is undone by ToExceptionCode. */
  lemma NamedExceptionRoundTrip(ex: ExceptionCode)
    requires !ex.Unknown?
    ensures FromExceptionCode(ex) != ModbusExceptionUnknown
    ensures ToExceptionCode(FromExceptionCode(ex)) == ex
  {
  }

  /** Hence two different named codes never share a value. */
  lemma NamedExceptionsDistinct(a: ExceptionCode, b: ExceptionCode)
    requires !a.Unknown? && !b.Unknown? && a != b
    ensures FromExceptionCode(a) != FromExceptionCode(b)
  {
    NamedExceptionRoundTrip(a);
    NamedExceptionRoundTrip(b);
  }

  /** The byte of an unknown code is dropped: all unknown codes look alike to the foreign caller. */
  lemma UnknownCodeDropped(a: u8, b: u8)
    ensures FromExceptionCode(Unknown(a)) == FromExceptionCode(Unknown(b)) == ModbusExceptionUnknown
  {
  }

  /** A point value as the foreign caller builds it. */
  datatype BitValue = BitValue(index: u16, value: bool)
  datatype RegisterValue = RegisterValue(index: u16, value: u16)

  /** `From<BitValue> for Indexed<bool>`: index and value kept as they are. */
  function BitValueToIndexed(x: BitValue): (r: Indexed<bool>)
    ensures r.index == x.index && r.value == x.value
  {
    Indexed(x.index, x.value)
  }

  /** `From<RegisterValue> for Indexed<u16>`: index and value kept as they are. */
  function RegisterValueToIndexed(x: RegisterValue): (r: Indexed<u16>)
    ensures r.index == x.index && r.value == x.value
  {
    Indexed(x.index, x.value)
  }

  /** Neither conversion loses anything: different inputs give different indexed values. */
  lemma ValueConversionsInjective(a: BitValue, b: BitValue, c: RegisterValue, d: RegisterValue)
    ensures BitValueToIndexed(a) == BitValueToIndexed(b) ==> a == b
    ensures RegisterValueToIndexed(c) == RegisterValueToIndexed(d) ==> c == d
  {
  }
}
