/**
 * The adapters between the engine and the callbacks of the C binding: how
 * a request's outcome reaches the foreign caller's callback, and how the
 * result a foreign write handler returns becomes the engine's result.
 */
module FfiExt {
  import opened Num
  import opened Wrappers
  import opened Exception
  import Errors
  import opened Types
  import opened FfiConversions

  /** The exception a foreign write handler may report. */
  datatype ModbusException =
    | Acknowledge
    | GatewayPathUnavailable
    | GatewayTargetDeviceFailedToRespond
    | IllegalDataAddress
    | IllegalDataValue
    | IllegalFunction
    | MemoryParityError
    | ServerDeviceBusy
    | ServerDeviceFailure
    | Unknown

  /** What a foreign write handler returns: success, or the exception to answer with (and its byte when it is unknown). */
  datatype WriteResult = WriteResult(success: bool, exception: ModbusException, rawException: u8)

  /** The engine's code that bears the same name. */
  function ExceptionOf(ex: ModbusException, raw: u8): (r: ExceptionCode)
    ensures ex.Unknown? <==> r.Unknown?
    ensures ex.Unknown? ==> r == ExceptionCode.Unknown(raw)
  {
    match ex
    case Acknowledge => ExceptionCode.Acknowledge
    case GatewayPathUnavailable => ExceptionCode.GatewayPathUnavailable
    case GatewayTargetDeviceFailedToRespond => ExceptionCode.GatewayTargetDeviceFailedToRespond
    case IllegalDataAddress => ExceptionCode.IllegalDataAddress
    case IllegalDataValue => ExceptionCode.IllegalDataValue
    case IllegalFunction => ExceptionCode.IllegalFunction
    case MemoryParityError => ExceptionCode.MemoryParityError
    case ServerDeviceBusy => ExceptionCode.ServerDeviceBusy
    case ServerDeviceFailure => ExceptionCode.ServerDeviceFailure
    case Unknown => ExceptionCode.Unknown(raw)
  }

  /** The foreign name of a named code: the inverse of ExceptionOf on the named codes. */
  function ForeignName(ex: ExceptionCode): (r: ModbusException)
    ensures ex.Unknown? <==> r.Unknown?
  {
    match ex
    case Acknowledge => ModbusException.Acknowledge
    case GatewayPathUnavailable => ModbusException.GatewayPathUnavailable
    case GatewayTargetDeviceFailedToRespond => ModbusException.GatewayTargetDeviceFailedToRespond
    case IllegalDataAddress => ModbusException.IllegalDataAddress
    case IllegalDataValue => ModbusException.IllegalDataValue
    case IllegalFunction => ModbusException.IllegalFunction
    case MemoryParityError => ModbusException.MemoryParityError
    case ServerDeviceBusy => ModbusException.ServerDeviceBusy
    case ServerDeviceFailure => ModbusException.ServerDeviceFailure
    case Unknown(_) => ModbusException.Unknown
  }

  /**
   * `WriteResult::convert_to_result`: success wins whatever the exception
   * fields hold; otherwise the exception with the same name, an unknown one
   * carrying the raw byte.
   */
  function ConvertToResult(w: WriteResult): (r: Result<(), ExceptionCode>)
    ensures r.Ok? <==> w.success
    ensures r.Err? ==> r.error == ExceptionOf(w.exception, w.rawException)
  {
    if w.success then Ok(()) else Err(ExceptionOf(w.exception, w.rawException))
  }

  /**
   * Every engine exception can be reported by a foreign handler, and comes
   * back unchanged: the named ones under their own name, an unknown one
   * through its raw byte.
   */
  lemma {:induction false} ConvertToResultReachesEveryCode(ex: ExceptionCode, raw: u8)
    requires ex.Unknown? ==> raw == ex.code
    ensures ConvertToResult(WriteResult(false, ForeignName(ex), raw)) == Err(ex)
  {
    match ex
    case Unknown(c) => assert ExceptionOf(ForeignName(ex), raw) == ExceptionCode.Unknown(raw);
    case _ =>
  }

  /** A successful result ignores the exception fields entirely. */
  lemma SuccessIgnoresException(a: ModbusException, b: ModbusException, x: u8, y: u8)
    ensures ConvertToResult(WriteResult(true, a, x)) == ConvertToResult(WriteResult(true, b, y)) == Ok(())
  {
  }

  /** A callback invocation: which of the two entry points is called, and with what. */
  datatype Invocation<T> = OnComplete(value: T) | OnFailure(error: FfiRequestError)

  /**
   * The `convert_to_fn_once` adapters: a request's outcome calls exactly one
   * of the callback's entry points — `on_complete` with the values on
   * success, `on_failure` with the binding's error code otherwise.
   */
  function ConvertToFnOnce<T>(result: Result<T, Errors.RequestError>): (call: Invocation<T>)
    ensures call.OnComplete? <==> result.Ok?
    ensures call.OnComplete? ==> call.value == result.value
    ensures call.OnFailure? ==> call.error == FromRequestError(result.error)
  {
    match result
    case Ok(v) => OnComplete(v)
    case Err(e) => OnFailure(FromRequestError(e))
  }

  /** `BitReadCallback::convert_to_fn_once`: the completed call sees the bits read, in order. */
  function BitReadCompletion(result: Result<seq<Indexed<bool>>, Errors.RequestError>): Invocation<seq<Indexed<bool>>> {
    ConvertToFnOnce(result)
  }

  /** `RegisterReadCallback::convert_to_fn_once`: the completed call sees the registers read. */
  function RegisterReadCompletion(result: Result<seq<Indexed<u16>>, Errors.RequestError>): Invocation<seq<Indexed<u16>>> {
    ConvertToFnOnce(result)
  }

  /** `WriteCallback::convert_to_fn_once`: whatever the write answered, the completed call carries nothing. */
  function WriteCompletion<T>(result: Result<T, Errors.RequestError>): (call: Invocation<()>)
    ensures call.OnComplete? <==> result.Ok?
    ensures call.OnFailure? ==> call.error == FromRequestError(result.error)
  {
    match result
    case Ok(_) => OnComplete(())
    case Err(e) => OnFailure(FromRequestError(e))
  }

  /** A failed read reaches the caller as the exception the device answered, when it answered one. */
  lemma ExceptionReachesFailureCallback(ex: ExceptionCode)
    ensures BitReadCompletion(Err(Errors.Exception(ex))) == OnFailure(FromExceptionCode(ex))
    ensures RegisterReadCompletion(Err(Errors.Exception(ex))) == OnFailure(FromExceptionCode(ex))
    ensures WriteCompletion<()>(Err(Errors.Exception(ex))) == OnFailure(FromExceptionCode(ex))
  {
  }
}
