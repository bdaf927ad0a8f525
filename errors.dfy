/** The error kinds the protocol engine reports, one datatype per Rust error enum. */
module Errors {
  import opened Num
  import opened Exception

  /** Errors that indicate a bug or a resource limit inside the library. */
  datatype InternalError =
    | InsufficientWriteSpace(written: nat, remaining: nat)
    | FrameTooBig(size: nat, max: nat)
    | InsufficientBytesForRead(requested: nat, remaining: nat)
    | BadSeekOperation
    | BadByteCount(count: nat)

  /** Why a start/count pair is not a usable address range. */
  datatype InvalidRange =
    | CountOfZero
    | AddressOverflow(start: u16, count: u16)
    | CountTooLargeForType(count: u16, max: u16)

  /** Errors in a request built by the user. */
  datatype InvalidRequest =
    | BadRange(range: InvalidRange)
    | CountTooBigForType(count: u16, max: u16)

  /** Errors found while decoding a request or a response PDU. */
  datatype AduParseError =
    | InsufficientBytes
    | RequestByteCountMismatch(expected: nat, actual: nat)
    | InsufficientBytesForByteCount(count: nat, remaining: nat)
    | TrailingBytes(remaining: nat)
    | ReplyEchoMismatch
    | UnknownResponseFunction(received: u8, expectedCode: u8, expectedError: u8)
    | UnknownCoilState(value: u16)

  /** Errors found while splitting a byte stream into frames. */
  datatype FrameParseError =
    | MbapLengthZero
    | FrameLengthTooBig(size: nat, max: nat)
    | UnknownProtocolId(id: u16)
    | UnknownFunctionCode(code: u8)
    | CrcValidationFailure(received: u16, expected: u16)

  /** The I/O failures the model distinguishes. */
  datatype IoError = UnexpectedEof | OtherIo

  /** The error type of every request. */
  datatype RequestError =
    | Io(io: IoError)
    | Exception(exception: ExceptionCode)
    | BadRequest(request: InvalidRequest)
    | BadFrame(frame: FrameParseError)
    | BadResponse(response: AduParseError)
    | Internal(internal: InternalError)
    | ResponseTimeout
    | NoConnection
    | Shutdown

  /** `impl From<InvalidRange> for RequestError`. */
  function FromInvalidRange(e: InvalidRange): RequestError {
    BadRequest(BadRange(e))
  }
}
