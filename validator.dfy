/**
 * The wrapper the server puts around a user's handler before asking it for
 * data: ranges are checked before the handler is called, and a read whose
 * answer has the wrong number of points becomes a device failure.
 */
module Validators {
  import opened Num
  import opened Wrappers
  import opened Exception
  import opened Types

  /** The user's handler: its answer to each read and each write. */
  datatype InnerHandler = InnerHandler(
    readCoils: AddressRange -> Result<seq<bool>, ExceptionCode>,
    readDiscreteInputs: AddressRange -> Result<seq<bool>, ExceptionCode>,
    readHoldingRegisters: AddressRange -> Result<seq<u16>, ExceptionCode>,
    readInputRegisters: AddressRange -> Result<seq<u16>, ExceptionCode>,
    writeSingleCoil: Indexed<bool> -> Result<(), ExceptionCode>,
    writeSingleRegister: Indexed<u16> -> Result<(), ExceptionCode>,
    writeMultipleCoils: (AddressRange, seq<Indexed<bool>>) -> Result<(), ExceptionCode>,
    writeMultipleRegisters: (AddressRange, seq<Indexed<u16>>) -> Result<(), ExceptionCode>)

  /** `validate_range`: an invalid range is reported as IllegalDataAddress. */
  function ValidateRange(range: AddressRange): (r: Result<(), ExceptionCode>)
    ensures r.Ok? <==> range.IsValid()
    ensures r.Err? ==> r.error == IllegalDataAddress
  {
    match TryFrom(range.start, range.count)
    case Ok(_) => Ok(())
    case Err(_) => Err(IllegalDataAddress)
  }

  /**
   * `validate_result`: a list of points of the wrong length is a device
   * failure; a list of the right length and an exception pass unchanged.
   */
  function ValidateResult<U>(range: AddressRange, result: Result<seq<U>, ExceptionCode>): (r: Result<seq<U>, ExceptionCode>)
    ensures r.Ok? ==> r == result && |r.value| == range.count
    ensures result.Err? ==> r == result
    ensures result.Ok? && |result.value| != range.count ==> r == Err(ServerDeviceFailure)
  {
    if result.Ok? && |result.value| != range.count then Err(ServerDeviceFailure) else result
  }

  /**
   * The four validated reads: the handler is asked only for a valid range,
   * and what comes back has exactly `count` points or is an exception.
   */
  function ValidatedRead<U>(read: AddressRange -> Result<seq<U>, ExceptionCode>, range: AddressRange): (r: Result<seq<U>, ExceptionCode>)
    ensures !range.IsValid() ==> r == Err(IllegalDataAddress)
    ensures range.IsValid() && read(range).Ok? && |read(range).value| == range.count ==> r == read(range)
    ensures range.IsValid() && read(range).Ok? && |read(range).value| != range.count ==> r == Err(ServerDeviceFailure)
    ensures range.IsValid() && read(range).Err? ==> r == read(range)
    ensures r.Ok? ==> |r.value| == range.count
  {
    var _ :- ValidateRange(range);
    ValidateResult(range, read(range))
  }

  /** `read_coils`: IllegalDataAddress for an invalid range, else the handler's answer of exactly `count` points. */
  function ReadCoils(inner: InnerHandler, range: AddressRange): (r: Result<seq<bool>, ExceptionCode>)
    ensures !range.IsValid() ==> r == Err(IllegalDataAddress)
    ensures r.Ok? ==> r == inner.readCoils(range) && |r.value| == range.count
    ensures range.IsValid() && inner.readCoils(range).Err? ==> r == inner.readCoils(range)
  {
    ValidatedRead(inner.readCoils, range)
  }

  /** `read_discrete_inputs`: IllegalDataAddress for an invalid range, else the handler's answer of exactly `count` points. */
  function ReadDiscreteInputs(inner: InnerHandler, range: AddressRange): (r: Result<seq<bool>, ExceptionCode>)
    ensures !range.IsValid() ==> r == Err(IllegalDataAddress)
    ensures r.Ok? ==> r == inner.readDiscreteInputs(range) && |r.value| == range.count
    ensures range.IsValid() && inner.readDiscreteInputs(range).Err? ==> r == inner.readDiscreteInputs(range)
  {
    ValidatedRead(inner.readDiscreteInputs, range)
  }

  /** `read_holding_registers`: IllegalDataAddress for an invalid range, else the handler's answer of exactly `count` points. */
  function ReadHoldingRegisters(inner: InnerHandler, range: AddressRange): (r: Result<seq<u16>, ExceptionCode>)
    ensures !range.IsValid() ==> r == Err(IllegalDataAddress)
    ensures r.Ok? ==> r == inner.readHoldingRegisters(range) && |r.value| == range.count
    ensures range.IsValid() && inner.readHoldingRegisters(range).Err? ==> r == inner.readHoldingRegisters(range)
  {
    ValidatedRead(inner.readHoldingRegisters, range)
  }

  /** `read_input_registers`: IllegalDataAddress for an invalid range, else the handler's answer of exactly `count` points. */
  function ReadInputRegisters(inner: InnerHandler, range: AddressRange): (r: Result<seq<u16>, ExceptionCode>)
    ensures !range.IsValid() ==> r == Err(IllegalDataAddress)
    ensures r.Ok? ==> r == inner.readInputRegisters(range) && |r.value| == range.count
    ensures range.IsValid() && inner.readInputRegisters(range).Err? ==> r == inner.readInputRegisters(range)
  {
    ValidatedRead(inner.readInputRegisters, range)
  }

  /** Single writes go to the handler without any check. */
  function WriteSingleCoil(inner: InnerHandler, value: Indexed<bool>): (r: Result<(), ExceptionCode>)
    ensures r == inner.writeSingleCoil(value)
  {
    inner.writeSingleCoil(value)
  }

  function WriteSingleRegister(inner: InnerHandler, value: Indexed<u16>): (r: Result<(), ExceptionCode>)
    ensures r == inner.writeSingleRegister(value)
  {
    inner.writeSingleRegister(value)
  }

  /** Multiple writes reach the handler only with a valid range. */
  function ValidatedWrite<T>(write: (AddressRange, seq<Indexed<T>>) -> Result<(), ExceptionCode>,
                             range: AddressRange, items: seq<Indexed<T>>): (r: Result<(), ExceptionCode>)
    ensures !range.IsValid() ==> r == Err(IllegalDataAddress)
    ensures range.IsValid() ==> r == write(range, items)
  {
    var _ :- ValidateRange(range);
    write(range, items)
  }

  /** `write_multiple_coils`: the handler is asked only for a valid range. */
  function WriteMultipleCoils(inner: InnerHandler, range: AddressRange, items: seq<Indexed<bool>>): (r: Result<(), ExceptionCode>)
    ensures !range.IsValid() ==> r == Err(IllegalDataAddress)
    ensures range.IsValid() ==> r == inner.writeMultipleCoils(range, items)
  {
    ValidatedWrite(inner.writeMultipleCoils, range, items)
  }

  /** `write_multiple_registers`: the handler is asked only for a valid range. */
  function WriteMultipleRegisters(inner: InnerHandler, range: AddressRange, items: seq<Indexed<u16>>): (r: Result<(), ExceptionCode>)
    ensures !range.IsValid() ==> r == Err(IllegalDataAddress)
    ensures range.IsValid() ==> r == inner.writeMultipleRegisters(range, items)
  {
    ValidatedWrite(inner.writeMultipleRegisters, range, items)
  }

  /**
   * An invalid range never reaches the handler: two handlers that differ in
   * every answer give the same result for it.
   */
  lemma InvalidRangeNeverReachesHandler(a: InnerHandler, b: InnerHandler, range: AddressRange, coils: seq<Indexed<bool>>,
                                        registers: seq<Indexed<u16>>)
    requires !range.IsValid()
    ensures ReadCoils(a, range) == ReadCoils(b, range) == Err(IllegalDataAddress)
    ensures ReadDiscreteInputs(a, range) == ReadDiscreteInputs(b, range) == Err(IllegalDataAddress)
    ensures ReadHoldingRegisters(a, range) == ReadHoldingRegisters(b, range) == Err(IllegalDataAddress)
    ensures ReadInputRegisters(a, range) == ReadInputRegisters(b, range) == Err(IllegalDataAddress)
    ensures WriteMultipleCoils(a, range, coils) == WriteMultipleCoils(b, range, coils) == Err(IllegalDataAddress)
    ensures WriteMultipleRegisters(a, range, registers) == WriteMultipleRegisters(b, range, registers) == Err(IllegalDataAddress)
  {
  }

  /** The slicing handler, validated: a valid range inside the slice yields exactly its points. */
  lemma ValidatedSlice<T>(slice: seq<T>, range: AddressRange)
    requires range.IsValid() && range.End() <= |slice|
    ensures var read := (r: AddressRange) => if r.End() <= |slice| then Ok(slice[r.start..r.End()]) else Err(IllegalDataAddress);
            ValidatedRead(read, range) == Ok(slice[range.start..range.End()])
  {
  }
}
