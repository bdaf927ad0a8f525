/**
 * The server side of the second C binding: each unit has fixed-size point
 * tables, created zeroed, that reads are served from; every write is only
 * reported to the foreign program, whose boolean answer decides the reply,
 * and the tables are never written by the server.
 */
module NewFfiServer {
  import opened Num
  import opened Wrappers
  import opened Exception
  import opened Types
  import Service
  import ServerHandlers
  import FfiExt
  import FfiServer
  import LegacyFfiServer

  /** `ffi::WriteHandler`: each callback may answer whether it accepted the write, or give no answer. */
  datatype WriteHandler = WriteHandler(
    writeSingleCoil: (bool, u16) -> Option<bool>,
    writeSingleRegister: (u16, u16) -> Option<bool>,
    writeMultipleCoils: (u16, seq<Indexed<bool>>) -> Option<bool>,
    writeMultipleRegisters: (u16, seq<Indexed<u16>>) -> Option<bool>)

  /** How a write's answer becomes the reply: accepted is success, refused an illegal address, no answer an unsupported function. */
  function WriteAnswer(answer: Option<bool>): (r: Result<(), ExceptionCode>)
    ensures r.Ok? <==> answer == Some(true)
    ensures answer == Some(false) ==> r == Err(IllegalDataAddress)
    ensures answer.None? ==> r == Err(IllegalFunction)
  {
    match answer
    case Some(success) => if success then Ok(()) else Err(IllegalDataAddress)
    case None => Err(IllegalFunction)
  }

  /**
   * The second binding reads a boolean answer exactly as the first one reads
   * the answer of its single-coil callback: the exception fields never matter.
   */
  lemma SameAsFirstBindingSingleCoil(answer: Option<bool>, exception: FfiExt.ModbusException, raw: u8)
    ensures WriteAnswer(answer)
            == FfiServer.SingleCoilOutcome(if answer.None? then None else Some(FfiExt.WriteResult(answer.value, exception, raw)))
  {
  }

  /** `EndpointHandler`: the write callbacks and the four point tables. */
  datatype EndpointHandler = EndpointHandler(
    writeHandler: WriteHandler,
    coils: seq<bool>,
    discreteInputs: seq<bool>,
    holdingRegisters: seq<u16>,
    inputRegisters: seq<u16>)
  {
    function ReadCoils(range: ReadBitsRange): (r: Result<seq<bool>, ExceptionCode>)
      ensures r.Ok? <==> range.inner.start < |coils| && range.inner.End() <= |coils|
      ensures r.Ok? ==> r.value == coils[range.inner.start..range.inner.End()]
    {
      ServerHandlers.GetRangeOf(coils, range.inner)
    }

    function ReadDiscreteInputs(range: ReadBitsRange): (r: Result<seq<bool>, ExceptionCode>)
      ensures r.Ok? <==> range.inner.start < |discreteInputs| && range.inner.End() <= |discreteInputs|
      ensures r.Ok? ==> r.value == discreteInputs[range.inner.start..range.inner.End()]
    {
      ServerHandlers.GetRangeOf(discreteInputs, range.inner)
    }

    function ReadHoldingRegisters(range: ReadRegistersRange): (r: Result<seq<u16>, ExceptionCode>)
      ensures r.Ok? <==> range.inner.start < |holdingRegisters| && range.inner.End() <= |holdingRegisters|
      ensures r.Ok? ==> r.value == holdingRegisters[range.inner.start..range.inner.End()]
    {
      ServerHandlers.GetRangeOf(holdingRegisters, range.inner)
    }

    function ReadInputRegisters(range: ReadRegistersRange): (r: Result<seq<u16>, ExceptionCode>)
      ensures r.Ok? <==> range.inner.start < |inputRegisters| && range.inner.End() <= |inputRegisters|
      ensures r.Ok? ==> r.value == inputRegisters[range.inner.start..range.inner.End()]
    {
      ServerHandlers.GetRangeOf(inputRegisters, range.inner)
    }

    /** The single writes: the callback gets the value, then the index. */
    function WriteSingleCoil(value: Indexed<bool>): (r: Result<(), ExceptionCode>)
      ensures r.Ok? <==> writeHandler.writeSingleCoil(value.value, value.index) == Some(true)
    {
      WriteAnswer(writeHandler.writeSingleCoil(value.value, value.index))
    }

    function WriteSingleRegister(value: Indexed<u16>): (r: Result<(), ExceptionCode>)
      ensures r.Ok? <==> writeHandler.writeSingleRegister(value.value, value.index) == Some(true)
    {
      WriteAnswer(writeHandler.writeSingleRegister(value.value, value.index))
    }

    /** The multiple writes: the callback gets the start and the values. */
    function WriteMultipleCoils(values: Service.WriteCoils): (r: Result<(), ExceptionCode>)
      ensures r.Ok? <==> writeHandler.writeMultipleCoils(values.range.start, values.values) == Some(true)
    {
      WriteAnswer(writeHandler.writeMultipleCoils(values.range.start, values.values))
    }

    function WriteMultipleRegisters(values: Service.WriteRegisters): (r: Result<(), ExceptionCode>)
      ensures r.Ok? <==> writeHandler.writeMultipleRegisters(values.range.start, values.values) == Some(true)
    {
      WriteAnswer(writeHandler.writeMultipleRegisters(values.range.start, values.values))
    }
  }

  /** `EndpointHandler::new`: tables of the given sizes, every coil and input false and every register zero. */
  function NewEndpoint(writeHandler: WriteHandler, sizes: LegacyFfiServer.Sizes): (h: EndpointHandler)
    ensures h.writeHandler == writeHandler
    ensures |h.coils| == sizes.numCoils as int && |h.discreteInputs| == sizes.numDiscreteInputs as int
    ensures |h.holdingRegisters| == sizes.numHoldingRegisters as int && |h.inputRegisters| == sizes.numInputRegisters as int
    ensures forall k :: 0 <= k < |h.coils| ==> !h.coils[k]
    ensures forall k :: 0 <= k < |h.discreteInputs| ==> !h.discreteInputs[k]
    ensures forall k :: 0 <= k < |h.holdingRegisters| ==> h.holdingRegisters[k] == 0
    ensures forall k :: 0 <= k < |h.inputRegisters| ==> h.inputRegisters[k] == 0
  {
    EndpointHandler(writeHandler,
                    seq(sizes.numCoils as int, _ => false), seq(sizes.numDiscreteInputs as int, _ => false),
                    seq(sizes.numHoldingRegisters as int, _ => 0), seq(sizes.numInputRegisters as int, _ => 0))
  }

  /** Since the server never stores a write, a fresh endpoint reads zero for every register in its table. */
  lemma FreshEndpointReadsZero(writeHandler: WriteHandler, sizes: LegacyFfiServer.Sizes, range: ReadRegistersRange)
    requires range.inner.start < sizes.numHoldingRegisters as int && range.inner.End() <= sizes.numHoldingRegisters as int
    ensures NewEndpoint(writeHandler, sizes).ReadHoldingRegisters(range) == Ok(seq(range.inner.count as int, _ => 0))
  {
    var h := NewEndpoint(writeHandler, sizes);
    var r := h.ReadHoldingRegisters(range);
    assert r.value == seq(range.inner.count as int, _ => 0);
  }

  /** `DeviceMap`: the sizes and callbacks registered for each unit id. */
  class DeviceMap {
    var inner: map<u8, (LegacyFfiServer.Sizes, WriteHandler)>

    /** `create_device_map` */
    constructor ()
      ensures inner == map[]
    {
      inner := map[];
    }

    /** `drain_and_convert`: each entry becomes a fresh endpoint handler under its unit id; the map is left empty. */
    method DrainAndConvert() returns (handlers: ServerHandlers.ServerHandlerMap<EndpointHandler>)
      modifies this
      ensures fresh(handlers) && inner == map[]
      ensures forall id: UnitId :: id in handlers.handlers <==> id.value in old(inner)
      ensures forall id: UnitId :: id in handlers.handlers ==>
                handlers.handlers[id] == NewEndpoint(old(inner)[id.value].1, old(inner)[id.value].0)
    {
      handlers := new ServerHandlers.ServerHandlerMap();
      var remaining := inner.Keys;
      while remaining != {}
        invariant inner == old(inner) && remaining <= inner.Keys
        invariant forall id: UnitId :: id in handlers.handlers <==> id.value in inner && id.value !in remaining
        invariant forall id: UnitId :: id in handlers.handlers ==> handlers.handlers[id] == NewEndpoint(inner[id.value].1, inner[id.value].0)
        decreases remaining
      {
        var k :| k in remaining;
        handlers.Add(UnitId(k), NewEndpoint(inner[k].1, inner[k].0));
        remaining := remaining - {k};
      }
      inner := map[];
    }
  }

  /** `map_add_endpoint`: a null map or a unit id already present is refused and nothing changes. */
  method MapAddEndpoint(deviceMap: DeviceMap?, unitId: u8, sizes: LegacyFfiServer.Sizes, writeHandler: WriteHandler) returns (ok: bool)
    modifies deviceMap
    ensures deviceMap == null ==> !ok
    ensures deviceMap != null ==> (ok <==> unitId !in old(deviceMap.inner))
    ensures deviceMap != null && ok ==> deviceMap.inner == old(deviceMap.inner)[unitId := (sizes, writeHandler)]
    ensures deviceMap != null && !ok ==> deviceMap.inner == old(deviceMap.inner)
  {
    if deviceMap == null {
      return false;
    }
    if unitId in deviceMap.inner {
      return false;
    }
    deviceMap.inner := deviceMap.inner[unitId := (sizes, writeHandler)];
    ok := true;
  }
}
