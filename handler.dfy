/**
 * The in-memory handler of the older server: four vectors of points, reads
 * served by slicing them, single writes refused; and the map from unit ids
 * to the handlers a server dispatches to.
 */
module ServerHandlers {
  import opened Num
  import opened Wrappers
  import opened Exception
  import opened Types

  /**
   * `get_range_of`: the `count` points from `start`, or IllegalDataAddress when
   * the start is not a point of the slice or the range runs past its end.
   */
  function GetRangeOf<T>(slice: seq<T>, range: AddressRange): (r: Result<seq<T>, ExceptionCode>)
    ensures r.Ok? <==> range.start < |slice| && range.End() <= |slice|
    ensures r.Err? ==> r.error == IllegalDataAddress
    ensures r.Ok? ==> |r.value| == range.count
    ensures r.Ok? ==> forall k :: 0 <= k < range.count ==> r.value[k] == slice[range.start + k]
  {
    if range.start >= |slice| || range.End() > |slice| then Err(IllegalDataAddress)
    else Ok(slice[range.start..range.End()])
  }

  /**
   * For the valid ranges the server passes on, the start check adds nothing:
   * the read succeeds exactly when the range ends inside the slice. Only an
   * empty range at the very end of the slice is refused by it alone.
   */
  lemma GetRangeOfValid<T>(slice: seq<T>, range: AddressRange)
    requires range.IsValid()
    ensures GetRangeOf(slice, range).Ok? <==> range.End() <= |slice|
  {
  }

  lemma GetRangeOfEmptyAtEnd<T>(slice: seq<T>)
    requires |slice| < 0x1_0000
    ensures GetRangeOf(slice, AddressRange(|slice|, 0)) == Err(IllegalDataAddress)
  {
  }

  /** Reading back what a slice holds: the points of two adjacent ranges, joined, are those of their union. */
  lemma GetRangeOfAdjacent<T>(slice: seq<T>, start: u16, n: u16, m: u16)
    requires 1 <= n && 1 <= m && n + m < 0x1_0000 && start + n + m <= |slice| && start + n + m <= 0x1_0000
    ensures GetRangeOf(slice, AddressRange(start, n)).Ok?
    ensures GetRangeOf(slice, AddressRange(start + n, m)).Ok?
    ensures GetRangeOf(slice, AddressRange(start, n + m)).Ok?
    ensures GetRangeOf(slice, AddressRange(start, n)).value + GetRangeOf(slice, AddressRange(start + n, m)).value
            == GetRangeOf(slice, AddressRange(start, n + m)).value
  {
    var a := GetRangeOf(slice, AddressRange(start, n)).value;
    var b := GetRangeOf(slice, AddressRange(start + n, m)).value;
    var c := GetRangeOf(slice, AddressRange(start, n + m)).value;
    assert |a + b| == |c|;
    forall k | 0 <= k < |c| ensures (a + b)[k] == c[k] {
      if k < n {
        assert (a + b)[k] == a[k];
      } else {
        assert (a + b)[k] == b[k - n];
      }
    }
  }

  /** `ServerHandler`: the points of one device. */
  class ServerHandler {
    var discreteInputs: seq<bool>
    var coils: seq<bool>
    var inputRegisters: seq<u16>
    var holdingRegisters: seq<u16>

    constructor (discreteInputs: seq<bool>, coils: seq<bool>, inputRegisters: seq<u16>, holdingRegisters: seq<u16>)
      ensures this.discreteInputs == discreteInputs && this.coils == coils
      ensures this.inputRegisters == inputRegisters && this.holdingRegisters == holdingRegisters
    {
      this.discreteInputs := discreteInputs;
      this.coils := coils;
      this.inputRegisters := inputRegisters;
      this.holdingRegisters := holdingRegisters;
    }

    /** `mut_coils`, used to change the coils in place: the one coil at `index` takes `value`. */
    method SetCoil(index: nat, value: bool)
      requires index < |coils|
      modifies this
      ensures coils == old(coils)[index := value]
      ensures discreteInputs == old(discreteInputs) && inputRegisters == old(inputRegisters)
      ensures holdingRegisters == old(holdingRegisters)
    {
      coils := coils[index := value];
    }

    /** `read_coils`: the coils of the range, or IllegalDataAddress when it does not lie inside them. */
    function ReadCoils(range: AddressRange): (r: Result<seq<bool>, ExceptionCode>)
      reads this
      ensures r.Ok? <==> range.start < |coils| && range.End() <= |coils|
      ensures r.Ok? ==> r.value == coils[range.start..range.End()]
      ensures r.Err? ==> r.error == IllegalDataAddress
    {
      GetRangeOf(coils, range)
    }

    /** `read_discrete_inputs`: the discrete inputs of the range, or IllegalDataAddress when it does not lie inside them. */
    function ReadDiscreteInputs(range: AddressRange): (r: Result<seq<bool>, ExceptionCode>)
      reads this
      ensures r.Ok? <==> range.start < |discreteInputs| && range.End() <= |discreteInputs|
      ensures r.Ok? ==> r.value == discreteInputs[range.start..range.End()]
      ensures r.Err? ==> r.error == IllegalDataAddress
    {
      GetRangeOf(discreteInputs, range)
    }

    /** `read_holding_registers`: the holding registers of the range, or IllegalDataAddress when it does not lie inside them. */
    function ReadHoldingRegisters(range: AddressRange): (r: Result<seq<u16>, ExceptionCode>)
      reads this
      ensures r.Ok? <==> range.start < |holdingRegisters| && range.End() <= |holdingRegisters|
      ensures r.Ok? ==> r.value == holdingRegisters[range.start..range.End()]
      ensures r.Err? ==> r.error == IllegalDataAddress
    {
      GetRangeOf(holdingRegisters, range)
    }

    /** `read_input_registers`: the input registers of the range, or IllegalDataAddress when it does not lie inside them. */
    function ReadInputRegisters(range: AddressRange): (r: Result<seq<u16>, ExceptionCode>)
      reads this
      ensures r.Ok? <==> range.start < |inputRegisters| && range.End() <= |inputRegisters|
      ensures r.Ok? ==> r.value == inputRegisters[range.start..range.End()]
      ensures r.Err? ==> r.error == IllegalDataAddress
    {
      GetRangeOf(inputRegisters, range)
    }

    /** `write_single_coil`: not supported by this handler; nothing changes. */
    method WriteSingleCoil(value: Indexed<bool>) returns (r: Result<(), ExceptionCode>)
      ensures r == Err(IllegalFunction)
    {
      r := Err(IllegalFunction);
    }

    /** `write_single_register`: not supported either. */
    method WriteSingleRegister(value: Indexed<u16>) returns (r: Result<(), ExceptionCode>)
      ensures r == Err(IllegalFunction)
    {
      r := Err(IllegalFunction);
    }
  }

  /** After a coil is set, reading it back gives the new value and its neighbours are unchanged. */
  method SetThenRead(handler: ServerHandler, index: u16, value: bool) returns (r: Result<seq<bool>, ExceptionCode>)
    requires index < |handler.coils|
    modifies handler
    ensures r == Ok([value]) && |handler.coils| == |old(handler.coils)|
    ensures forall k :: 0 <= k < |handler.coils| && k != index ==> handler.coils[k] == old(handler.coils)[k]
  {
    handler.SetCoil(index, value);
    r := handler.ReadCoils(AddressRange(index, 1));
    assert handler.coils[index..index + 1] == [value];
  }

  /** `ServerHandlerMap`: the handler of each unit id a server answers for. */
  class ServerHandlerMap<H> {
    var handlers: map<UnitId, H>

    /** `new`: no unit is answered. */
    constructor ()
      ensures handlers == map[]
    {
      handlers := map[];
    }

    /** `single`: exactly one unit is answered. */
    constructor Single(id: UnitId, handler: H)
      ensures handlers == map[id := handler] && |handlers| == 1
    {
      handlers := map[id := handler];
    }

    /** `get`: the handler of a unit, if it has one. */
    function Get(id: UnitId): (r: Option<H>)
      reads this
      ensures r.Some? <==> id in handlers
      ensures r.Some? ==> r.value == handlers[id]
    {
      if id in handlers then Some(handlers[id]) else None
    }

    /** `add`: inserts the handler, replacing any earlier one of the same unit. */
    method Add(id: UnitId, server: H)
      modifies this
      ensures handlers == old(handlers)[id := server]
      ensures Get(id) == Some(server)
      ensures forall other :: other != id ==> Get(other) == old(Get(other))
    {
      handlers := handlers[id := server];
    }
  }
}
