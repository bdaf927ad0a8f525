/**
 * The server handler of the first C binding: four fixed-size vectors of
 * points, written by the server only when the foreign program's callback
 * accepts a write. Multiple writes are staged in a fixed buffer of the
 * largest write count before they reach the callback.
 *
 * The foreign callbacks are functions of what they are given; the opaque
 * user-data pointer they also receive is not modelled.
 */
module LegacyFfiServer {
  import opened Num
  import opened Wrappers
  import opened Exception
  import opened Types
  import opened Constants
  import Service
  import ServerHandlers

  /** `Sizes`: how many points of each kind a handler holds. */
  datatype Sizes = Sizes(numCoils: u16, numDiscreteInputs: u16, numHoldingRegisters: u16, numInputRegisters: u16)

  /**
   * `Callbacks`: each may be absent. A single write's callback gets the value
   * and the index; a multiple write's gets the staged values, the count and
   * the start. Returning true asks the server to store the values.
   */
  datatype Callbacks = Callbacks(
    writeSingleCoil: Option<(bool, u16) -> bool>,
    writeSingleRegister: Option<(u16, u16) -> bool>,
    writeMultipleCoils: Option<(seq<bool>, u16, u16) -> bool>,
    writeMultipleRegisters: Option<(seq<u16>, u16, u16) -> bool>)

  /** `base` with `items` written over it from index `at`. */
  function Overlay<T>(base: seq<T>, at: nat, items: seq<T>): (r: seq<T>)
    requires at + |items| <= |base|
    ensures |r| == |base|
    ensures forall j :: 0 <= j < |r| ==> r[j] == if at <= j < at + |items| then items[j - at] else base[j]
  {
    base[..at] + items + base[at + |items|..]
  }

  /** The values a write request carries, in order. */
  function Values<T>(items: seq<Indexed<T>>): (r: seq<T>)
    ensures |r| == |items| && forall k :: 0 <= k < |items| ==> r[k] == items[k].value
  {
    seq(|items|, k requires 0 <= k < |items| => items[k].value)
  }

  /**
   * `write_single`: without a callback the write is an unsupported function;
   * an index past the points is an illegal address and the callback is not
   * called; otherwise the write succeeds, and the point takes the value only
   * if the callback accepted it.
   */
  function SingleWrite<T>(data: seq<T>, pair: Indexed<T>, callback: Option<(T, u16) -> bool>): (r: (Result<(), ExceptionCode>, seq<T>))
    ensures |r.1| == |data|
    ensures callback.None? ==> r == (Err(IllegalFunction), data)
    ensures callback.Some? && pair.index >= |data| ==> r == (Err(IllegalDataAddress), data)
    ensures callback.Some? && pair.index < |data| ==>
              r.0 == Ok(()) && (forall j :: 0 <= j < |data| && j != pair.index ==> r.1[j] == data[j])
              && r.1[pair.index] == (if callback.value(pair.value, pair.index) then pair.value else data[pair.index])
  {
    match callback
    case None => (Err(IllegalFunction), data)
    case Some(accept) =>
      if pair.index >= |data| then (Err(IllegalDataAddress), data)
      else if accept(pair.value, pair.index) then (Ok(()), data[pair.index := pair.value])
      else (Ok(()), data)
  }

  /**
   * `write_multiple`: without a callback the write is an unsupported
   * function; a range past the points is an illegal address; otherwise the
   * write succeeds, and the range takes the values only if the callback
   * accepted them.
   */
  function MultipleWrite<T>(data: seq<T>, input: seq<T>, range: AddressRange, callback: Option<(seq<T>, u16, u16) -> bool>)
      : (r: (Result<(), ExceptionCode>, seq<T>))
    requires |input| == range.count
    ensures |r.1| == |data|
    ensures callback.None? ==> r == (Err(IllegalFunction), data)
    ensures callback.Some? && range.End() > |data| ==> r == (Err(IllegalDataAddress), data)
    ensures callback.Some? && range.End() <= |data| ==>
              r.0 == Ok(()) && (forall j :: 0 <= j < |data| && !(range.start <= j < range.End()) ==> r.1[j] == data[j])
              && (callback.value(input, range.count, range.start) ==> r.1[range.start..range.End()] == input)
              && (!callback.value(input, range.count, range.start) ==> r.1 == data)
  {
    match callback
    case None => (Err(IllegalFunction), data)
    case Some(accept) =>
      if range.End() > |data| then (Err(IllegalDataAddress), data)
      else if accept(input, range.count, range.start) then (Ok(()), Overlay(data, range.start, input))
      else (Ok(()), data)
  }

  /**
   * A multiple write staged at `stageLo` of the staging buffer: the slice
   * [stageLo, stageLo + count) must fit in the buffer (else device failure),
   * the values are copied into it (more values than the slice holds is a
   * device failure, after the ones that fit are copied), and the whole slice
   * is then written as by MultipleWrite. Returns the result, the new points
   * and the new staging buffer.
   */
  function StagedWrite<T>(data: seq<T>, staging: seq<T>, stageLo: nat, range: AddressRange, values: seq<T>,
                          callback: Option<(seq<T>, u16, u16) -> bool>): (r: (Result<(), ExceptionCode>, seq<T>, seq<T>))
    ensures |r.1| == |data| && |r.2| == |staging|
    ensures stageLo + range.count > |staging| ==> r == (Err(ServerDeviceFailure), data, staging)
    ensures r.0.Ok? ==> callback.Some? && range.End() <= |data| && |values| <= range.count && stageLo + range.count <= |staging|
    ensures r.0.Err? ==> r.1 == data
    ensures |values| == range.count && stageLo + range.count <= |staging| && callback.Some? && range.End() <= |data| ==>
              r.0 == Ok(()) && r.2[stageLo..stageLo + range.count] == values
              && (callback.value(values, range.count, range.start) ==> r.1[range.start..range.End()] == values)
  {
    var stageHi := stageLo + range.count;
    if stageHi > |staging| then (Err(ServerDeviceFailure), data, staging)
    else if |values| > range.count then (Err(ServerDeviceFailure), data, Overlay(staging, stageLo, values[..range.count]))
    else
      var staged := Overlay(staging, stageLo, values);
      var (result, written) := MultipleWrite(data, staged[stageLo..stageHi], range, callback);
      (result, written, staged)
  }

  /** `FFIHandler`: the points of one unit, the foreign callbacks, and the two staging buffers. */
  class FfiHandler {
    const bo: array<bool>
    const bi: array<bool>
    const ao: array<u16>
    const ai: array<u16>
    const callbacks: Callbacks
    const coilWriteBuffer: array<bool>
    const regWriteBuffer: array<u16>

    ghost predicate Valid()
      reads this
    {
      coilWriteBuffer.Length == MAX_WRITE_COILS_COUNT as int && regWriteBuffer.Length == MAX_WRITE_REGISTERS_COUNT as int
      && coilWriteBuffer != bo && regWriteBuffer != ao
    }

    /** `FFIHandler::new(Data::new(sizes), ...)`: every point false or zero, in vectors of the given sizes. */
    constructor (sizes: Sizes, callbacks: Callbacks)
      ensures Valid() && this.callbacks == callbacks
      ensures fresh(bo) && fresh(bi) && fresh(ao) && fresh(ai) && fresh(coilWriteBuffer) && fresh(regWriteBuffer)
      ensures bo[..] == seq(sizes.numCoils as int, _ => false) && bi[..] == seq(sizes.numDiscreteInputs as int, _ => false)
      ensures ao[..] == seq(sizes.numHoldingRegisters as int, _ => 0) && ai[..] == seq(sizes.numInputRegisters as int, _ => 0)
    {
      bo := new bool[sizes.numCoils](_ => false);
      bi := new bool[sizes.numDiscreteInputs](_ => false);
      ao := new u16[sizes.numHoldingRegisters](_ => 0);
      ai := new u16[sizes.numInputRegisters](_ => 0);
      this.callbacks := callbacks;
      coilWriteBuffer := new bool[MAX_WRITE_COILS_COUNT](_ => false);
      regWriteBuffer := new u16[MAX_WRITE_REGISTERS_COUNT](_ => 0);
    }

    /** The reads: the slice of the range, as `get_range_of` gives it. */
    function ReadCoils(range: ReadBitsRange): (r: Result<seq<bool>, ExceptionCode>)
      reads bo
      ensures r.Ok? <==> range.inner.start < bo.Length && range.inner.End() <= bo.Length
      ensures r.Ok? ==> r.value == bo[range.inner.start..range.inner.End()]
      ensures r.Err? ==> r.error == IllegalDataAddress
    {
      ServerHandlers.GetRangeOf(bo[..], range.inner)
    }

    function ReadDiscreteInputs(range: ReadBitsRange): (r: Result<seq<bool>, ExceptionCode>)
      reads bi
      ensures r.Ok? <==> range.inner.start < bi.Length && range.inner.End() <= bi.Length
      ensures r.Ok? ==> r.value == bi[range.inner.start..range.inner.End()]
      ensures r.Err? ==> r.error == IllegalDataAddress
    {
      ServerHandlers.GetRangeOf(bi[..], range.inner)
    }

    function ReadHoldingRegisters(range: ReadRegistersRange): (r: Result<seq<u16>, ExceptionCode>)
      reads ao
      ensures r.Ok? <==> range.inner.start < ao.Length && range.inner.End() <= ao.Length
      ensures r.Ok? ==> r.value == ao[range.inner.start..range.inner.End()]
      ensures r.Err? ==> r.error == IllegalDataAddress
    {
      ServerHandlers.GetRangeOf(ao[..], range.inner)
    }

    function ReadInputRegisters(range: ReadRegistersRange): (r: Result<seq<u16>, ExceptionCode>)
      reads ai
      ensures r.Ok? <==> range.inner.start < ai.Length && range.inner.End() <= ai.Length
      ensures r.Ok? ==> r.value == ai[range.inner.start..range.inner.End()]
      ensures r.Err? ==> r.error == IllegalDataAddress
    {
      ServerHandlers.GetRangeOf(ai[..], range.inner)
    }

    method WriteSingleCoil(pair: Indexed<bool>) returns (r: Result<(), ExceptionCode>)
      modifies bo
      ensures (r, bo[..]) == SingleWrite(old(bo[..]), pair, callbacks.writeSingleCoil)
    {
      r := WriteSingle(pair, bo, callbacks.writeSingleCoil);
    }

    method WriteSingleRegister(pair: Indexed<u16>) returns (r: Result<(), ExceptionCode>)
      modifies ao
      ensures (r, ao[..]) == SingleWrite(old(ao[..]), pair, callbacks.writeSingleRegister)
    {
      r := WriteSingle(pair, ao, callbacks.writeSingleRegister);
    }

    /** `write_multiple_coils`: staged at the request's own addresses in the 1968-coil buffer. */
    method WriteMultipleCoils(values: Service.WriteCoils) returns (r: Result<(), ExceptionCode>)
      requires Valid()
      modifies bo, coilWriteBuffer
      ensures (r, bo[..], coilWriteBuffer[..])
              == StagedWrite(old(bo[..]), old(coilWriteBuffer[..]), values.range.start, values.range, Values(values.values), callbacks.writeMultipleCoils)
    {
      r := StageAndWrite(coilWriteBuffer, values.range.start, values.range, Values(values.values), bo, callbacks.writeMultipleCoils);
    }

    /** `write_multiple_registers`: staged at the request's own addresses in the 123-register buffer. */
    method WriteMultipleRegisters(values: Service.WriteRegisters) returns (r: Result<(), ExceptionCode>)
      requires Valid()
      modifies ao, regWriteBuffer
      ensures (r, ao[..], regWriteBuffer[..])
              == StagedWrite(old(ao[..]), old(regWriteBuffer[..]), values.range.start, values.range, Values(values.values), callbacks.writeMultipleRegisters)
    {
      r := StageAndWrite(regWriteBuffer, values.range.start, values.range, Values(values.values), ao, callbacks.writeMultipleRegisters);
    }

    /** The intended staging: the values of any request of a legal count fit at the start of the buffer. */
    method WriteMultipleRegistersStagedAtZero(values: Service.WriteRegisters) returns (r: Result<(), ExceptionCode>)
      requires Valid()
      modifies ao, regWriteBuffer
      ensures (r, ao[..], regWriteBuffer[..])
              == StagedWrite(old(ao[..]), old(regWriteBuffer[..]), 0, values.range, Values(values.values), callbacks.writeMultipleRegisters)
    {
      r := StageAndWrite(regWriteBuffer, 0, values.range, Values(values.values), ao, callbacks.writeMultipleRegisters);
    }

    /** `update_coil`: sets a coil that exists and answers true; any other index answers false and nothing changes. */
    method UpdateCoil(value: bool, index: u16) returns (ok: bool)
      modifies bo
      ensures ok <==> index < bo.Length
      ensures ok ==> bo[..] == old(bo[..])[index := value]
      ensures !ok ==> bo[..] == old(bo[..])
    {
      if index < bo.Length {
        bo[index] := value;
        ok := true;
      } else {
        ok := false;
      }
    }
  }

  /**
   * `copy_to`: the items go, in order, into dest[lo..hi). With more items
   * than the slice holds, those that fit are written and the copy fails.
   */
  method CopyTo<T>(dest: array<T>, lo: nat, hi: nat, items: seq<T>) returns (r: Result<(), ExceptionCode>)
    requires lo <= hi <= dest.Length
    modifies dest
    ensures |items| <= hi - lo ==> r == Ok(()) && dest[..] == Overlay(old(dest[..]), lo, items)
    ensures |items| > hi - lo ==> r == Err(ServerDeviceFailure) && dest[..] == Overlay(old(dest[..]), lo, items[..hi - lo])
  {
    var k := 0;
    while k < |items|
      invariant 0 <= k <= |items| && k <= hi - lo
      invariant forall j :: 0 <= j < dest.Length ==> dest[j] == if lo <= j < lo + k then items[j - lo] else old(dest[j])
    {
      if lo + k >= hi {
        assert dest[..] == Overlay(old(dest[..]), lo, items[..hi - lo]);
        return Err(ServerDeviceFailure);
      }
      dest[lo + k] := items[k];
      k := k + 1;
    }
    assert dest[..] == Overlay(old(dest[..]), lo, items);
    r := Ok(());
  }

  method WriteSingle<T>(pair: Indexed<T>, vec: array<T>, callback: Option<(T, u16) -> bool>) returns (r: Result<(), ExceptionCode>)
    modifies vec
    ensures (r, vec[..]) == SingleWrite(old(vec[..]), pair, callback)
  {
    match callback {
      case None =>
        return Err(IllegalFunction);
      case Some(accept) =>
        if pair.index >= vec.Length {
          return Err(IllegalDataAddress);
        }
        if accept(pair.value, pair.index) {
          vec[pair.index] := pair.value;
        }
        r := Ok(());
    }
  }

  method WriteMultiple<T>(input: seq<T>, range: AddressRange, output: array<T>, callback: Option<(seq<T>, u16, u16) -> bool>)
      returns (r: Result<(), ExceptionCode>)
    requires |input| == range.count
    modifies output
    ensures (r, output[..]) == MultipleWrite(old(output[..]), input, range, callback)
  {
    match callback {
      case None =>
        return Err(IllegalFunction);
      case Some(accept) =>
        if range.End() > output.Length {
          return Err(IllegalDataAddress);
        }
        if accept(input, range.count, range.start) {
          forall j | range.start <= j < range.End() {
            output[j] := input[j - range.start];
          }
          assert output[..] == Overlay(old(output[..]), range.start, input);
        }
        r := Ok(());
    }
  }

  /** Stages the values at `stageLo` of `staging`, then writes the staged slice over the points. */
  method StageAndWrite<T>(staging: array<T>, stageLo: nat, range: AddressRange, values: seq<T>, data: array<T>,
                          callback: Option<(seq<T>, u16, u16) -> bool>) returns (r: Result<(), ExceptionCode>)
    requires staging != data
    modifies staging, data
    ensures (r, data[..], staging[..]) == StagedWrite(old(data[..]), old(staging[..]), stageLo, range, values, callback)
  {
    var stageHi := stageLo + range.count;
    if stageHi > staging.Length {
      return Err(ServerDeviceFailure);
    }
    var copied := CopyTo(staging, stageLo, stageHi, values);
    if copied.Err? {
      return copied;
    }
    var input := staging[stageLo..stageHi];
    r := WriteMultiple(input, range, data, callback);
  }

  /**
   * The staging as written: a request whose addresses end past the buffer's
   * length fails as a device failure, however many points the unit has.
   */
  lemma StagingByAddressRejects<T>(data: seq<T>, staging: seq<T>, range: AddressRange, values: seq<T>,
                                   callback: Option<(seq<T>, u16, u16) -> bool>)
    requires range.End() > |staging|
    ensures StagedWrite(data, staging, range.start, range, values, callback).0 == Err(ServerDeviceFailure)
  {
  }

  /** A unit with 200 holding registers cannot have registers 150 and 151 written together. */
  lemma HighRegistersUnwritable(data: seq<u16>, staging: seq<u16>, callback: (seq<u16>, u16, u16) -> bool)
    requires |data| == 200 && |staging| == MAX_WRITE_REGISTERS_COUNT as int
    ensures AddressRange(150, 2).IsValid() && AddressRange(150, 2).End() <= |data|
    ensures StagedWrite(data, staging, 150, AddressRange(150, 2), [1, 2], Some(callback)).0 == Err(ServerDeviceFailure)
  {
    StagingByAddressRejects(data, staging, AddressRange(150, 2), [1, 2], Some(callback));
  }

  /**
   * The corrected staging: any request of a legal count whose range lies
   * within the points succeeds, and the points take the values when the
   * callback accepts them.
   */
  lemma StagingAtZeroAccepts<T>(data: seq<T>, staging: seq<T>, range: AddressRange, values: seq<T>,
                                callback: (seq<T>, u16, u16) -> bool)
    requires |staging| == MAX_WRITE_REGISTERS_COUNT as int && range.count <= MAX_WRITE_REGISTERS_COUNT
    requires |values| == range.count && range.End() <= |data|
    ensures StagedWrite(data, staging, 0, range, values, Some(callback)).0 == Ok(())
    ensures callback(values, range.count, range.start) ==>
              StagedWrite(data, staging, 0, range, values, Some(callback)).1[range.start..range.End()] == values
  {
  }
}
